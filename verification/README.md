# FastSTDB storage engine: a verified model

FastSTDB keeps each time series in an append-only tree of 4 KB blocks. This project models the storage engine
bottom up, in the form the source has: classes and loops where the source changes things in place, functions
where it only computes. It proves what the parts promise each other.

| files | what they model |
|---|---|
| `Aggregation`, `TreeStore` | points, aggregates, and the immutable store of leaves and superblocks with their summaries |
| `Column`, `Heights`, `Recovery`, `Closing`, `NBTree`, `Sessions` | `NBTreeExtentsList`: append, commit, repair, open, close, whole sessions, and how high a column grows |
| `Crashes`, `CrashRuns` | what a crash takes in any later session, and runs with two crashes |
| `Scan`, `ColumnScan` | leaf, superblock and chained iterators, and a range query over a column |
| `Summaries`, `AggregateQuery`, `Buckets`, `GroupAggregate`, `ColumnGroup` | aggregates and group-aggregates that use cached summaries, over a whole column |
| `Bytes`, `Chunks`, `BlockWriter`, `BlockReader`, `Compression` | the block codec, over a flat buffer and over a scattered block, and how small it gets an evenly stepped series |
| `LeafCodec` | the tree over the codec: leaves that are filled by the block writer and read back by the block reader |
| `IOVec`, `BlockRing` | the 4 x 1 KB scattered block, and the ring of volumes |
| `Crc32c`, `CrcRemainder`, `Checksum` | CRC-32C (section 12.1 of RFC 3720) in its software and hardware forms, as a remainder of polynomials, and the checksum of a block |
| `LogFrame`, `LogWriter`, `InputLog` | packed log frames, the sharded write-ahead log, and its recovery |
| `SeriesName`, `SeriesForm` | the canonical form of a series name, and which names share one |

The main results:

- **Crash recovery.** For every run of appends into a new column, losing everything in memory and repairing from
  the rescue points gives back every accepted point except those of the one open leaf, in order and once
  (`Sessions.RunAndCrash`). Closing and reopening changes nothing (`Sessions.CloseAndReopen`).
- **Crashes in every later session.** A column can be started again after a crash at any time, in any session, and
  what it then holds is a function of its rescue points (`Sessions.CrashAndRecover`). Every commit changes that
  function in a known way (`NBTree.ExtentsList.Append`, `Recovery.AfterCommit`), so that for every column it is
  known what a crash, a restart, one committed leaf and a second crash leave (`CrashRuns.CrashTwice`). After a close
  and a reopen every run of appends is as safe as in a new column, until the column gets another level
  (`Sessions.ReopenRunAndCrash`).
- **Growth.** In every session a superblock is committed when it holds 32 references and one more is pushed
  (`NBTree.ExtentsList.SBlockAppend`). So the number of leaves that a run of appends has filled says how many levels a
  new column has: two up to 32 leaves, three up to 1056 (`Sessions.RunAndGrow`).
- **Queries.** A range query with any buffer sizes returns exactly the points in the range, in either direction
  (`ColumnScan.Query`). Aggregates and group-aggregates over all extents that skip whole subtrees agree with a fold of
  the raw points (`AggregateQuery.Aggregate`, `ColumnGroup.GroupColumn`).
- **Codec.** Whatever a block accepts is read back bit for bit, and a full block of 4 KB holds at least 231 samples
  (`BlockReader.RoundTrip`); the 304-byte margin makes the data-loss branches unreachable; the vectored writer is the
  flat writer (`BlockWriter.Lockstep`). From any state the predictor learns an even step in three values, and then every
  chunk of 16 samples takes at most 12 bytes: a block of 4 KB takes at least 4688 samples of an evenly stepped series,
  where 255 would fit uncompressed (`Compression.EvenRun`).
- **From points to blocks and back.** For every run of appends into a new column whose leaves are filled by the block
  writer, and a close, reading the blocks of the tree through the block reader gives the accepted points, in order and
  bit for bit (`LeafCodec.RunAndReadBlocks`).
- **Block ring.** Addresses increase, and an issued address reads back its own block or nothing
  (`BlockRing.FixedSizeStorage.ReadBlock`).
- **CRC-32C.** Slice-by-eight and the three-way form with its GF(2) zeros operator equal the bitwise definition on
  every input and alignment (`Crc32c.CrcSw`, `Crc32c.CrcHw`), and that is the one remainder of the message modulo the
  generator polynomial of CRC-32C (`CrcRemainder.CrcIsRemainder`).
- **Write-ahead log.** Recovery returns the rows in the order their frames were written, and it returns all of them
  if and only if no empty frame was ever written (`LogWriter.LogWriter.CloseAndRecover`). Whatever rows of names and
  rescue points a frame holds, its bytes give them back (`LogWriter.FrameRoundTrip`).
- **Series names.** Of names in which a tag name stands for one tag, two have one canonical form exactly when they have
  the same metric and their first 32 tags are read back from the form as the same (`SeriesForm.OneForm`). For spellings
  without a tag that ends in an escape, unless it has the greatest name, these are the tags (`SeriesForm.SameForm`).
  The form of such a form is itself (`SeriesForm.Twice`). No form is longer than the name.

Where the code does not keep a promise, the model keeps the code and says exactly when it does:

- `combine` keeps a stale `last` when the newest timestamp is repeated across a seam (`Aggregation.CombineConsecutive`).
  Over all ways to cut a run, `last` can be exactly the values at the newest timestamp; so it is the newest value however
  a run is cut if and only if these values agree (`Summaries.LastOverCuts`, `Summaries.LastExact`).
- After a repair no open node knows its predecessors. The next leaf that is committed puts the first chain that is not
  full out of reach of the rescue points: a second crash loses exactly its points, and none if and only if it is empty
  (`Crashes.SecondCrash`, `CrashRuns.CrashTwice`). Four points and two crashes are enough (`CrashRuns.LosingRun`).
- After a reopen commits are safe until one finds every level full and the column gets a new level. Then the children
  that the copy of the root has collected since the reopen are saved twice, and a crash brings them back twice: none if
  and only if the root had 32 children when it was opened (`Crashes.GrowthDoubles`, `CrashRuns.AppendAndCrash`,
  `CrashRuns.DoublingRun`). In any session, and however far a commit climbs, nothing is saved twice exactly when no open
  node on its way has a predecessor, if the rescue points above hold what is there (`Crashes.CommitThrough`); with every
  level full that is always so (`Crashes.CommitOnFull`).
- After a crash late writes are measured against 0 and not against the newest point, unless the column is empty, holds
  nothing newer than 0, or was only opened (`Sessions.CrashAndRecover`, `CrashRuns.LateWriteAfterCrash`).
- While the leaf level is open and empty, as after a repair, an aggregate over a range without points is answered with
  an aggregate over no points (`AggregateQuery.Aggregate`, `CrashRuns.EmptyAnswerAfterCrash`).
- The group-aggregate shortcut takes a subtree that is not inside the range for the queries that would also take one over
  the whole time axis, and for no others (`Buckets.ShortcutExact`); below 2^63 there are none (`Buckets.SafeBelow63Bits`).
- The checksum of a superblock covers as many bytes behind the header as it has references. A change of one byte behind
  the header is noticed if and only if it is one of these; of the header only the bytes of the checksum itself are
  noticed, and another payload size moves the end of what is covered (`Checksum.NoticesChange`,
  `Checksum.SuperblockCovers`).
- A scattered block refuses a chunk that would fill it to the last byte (`IOVec.AcceptsLikeFlat`,
  `IOVec.LastByteIsRefused`), and a block that was read back loses all but its first kilobyte when stored again
  (`IOVec.StoreWhole`, `IOVec.StoreWholeLoses`).
- `can_write` accepts an empty blob in a full log frame (`LogFrame.GuardExact`, `LogFrame.EmptyBlobDestroys`).
- A change of frame type right after a flexible frame was flushed as full writes an empty frame; recovery stops
  reading that shard there (`LogWriter.TypeChangeLosesRows`).
- A tab directly behind a word of a series name does not end it (`SeriesForm.TokensOfText`, `SeriesForm.TabsDoNotSeparate`).
- A form is a name with the tags it was made of if and only if no tag ends in an escape, unless it has the greatest
  name (`SeriesForm.FormReadsBack`, `SeriesForm.Twice`). Otherwise the tag runs into the next, and names with different
  tags share a form (`SeriesForm.EscapeAtTheEndCollides`).
- When a tag name stands for two tags, the order of the form is left open: there is one order if and only if no tag
  name does (`SeriesForm.OneOrder`), and "c a=1 a=2" and "c a=2 a=1" can each be their own form
  (`SeriesForm.RepeatedNameHasTwoForms`).

Modelling decisions. Doubles are reals in aggregates and 64-bit patterns in the codec. One column owns one store;
block addresses are indices into it. Whether a leaf can take another point is a parameter, a function of its
points and the new one that accepts any point into an empty leaf; `LeafCodec` puts the block writer there. Iterators
are values that `read` returns anew. Ghost arguments carry the points an iterator still has to deliver. Lookup tables
of the CRC are the functions they tabulate; the `crc32q` and `crc32b` instructions are the register after eight bytes
and after one. LZ4 is the identity. Characters of series names are signed bytes.

## Model

| member | source | states |
|---|---|---|
| `Aggregation.FoldMeaning` | faststdb/storage/operators/operator.cc:51-78 | adding points one by one counts and sums them and keeps the first and the last with their timestamps |
| `Aggregation.FoldMin` | faststdb/storage/operators/operator.cc:51-78 | the minimum is the smallest value, and its time that of the earliest point that has it |
| `Aggregation.FoldMax` | faststdb/storage/operators/operator.cc:51-78 | the maximum is the largest value, and its time that of the earliest point that has it |
| `Aggregation.FoldConcat` | faststdb/storage/nbtree.cc:164-207 | the fold of two runs is their joined folds, with the ends taken from the outer runs |
| `Aggregation.CombineConsecutive` | faststdb/storage/operators/operator.cc:80-99 | `combine` of two consecutive sorted runs is the fold of both if and only if the second ends later, or on the same value; otherwise only `last` is off |
| `Aggregation.CombineIntoInit` | faststdb/storage/operators/operator.cc:80-99 | combining into the initial aggregate copies a fold if and only if the run touches no timestamp sentinel with a non-zero value |
| `Aggregation.DuplicateAcrossSeamLosesLast` | faststdb/storage/operators/operator.cc:80-99 | two points with one timestamp whose combined `last` is the older value |
| `TreeStore.SummariseSubtree` | faststdb/storage/nbtree.cc:164-207 | the loop over the children of a superblock joins their summaries |
| `TreeStore.JoinAllIsFold` | faststdb/storage/nbtree.cc:164-207 | the joined summaries of well-formed references are the fold of all points under them |
| `TreeStore.RefSummary` | faststdb/storage/nbtree.cc:151-207 | every stored reference equals the fold of the points under it |
| `TreeStore.AppendLeaf` | faststdb/storage/nbtree.cc:1865-1886 | storing a leaf whose header is the fold of its points keeps the whole store well formed |
| `TreeStore.AppendInner` | faststdb/storage/nbtree.cc:2149-2170 | storing a superblock keeps the store well formed, and the new node holds the points of its references |
| `Column.AlignedBackLink` | faststdb/storage/nbtree.cc:1871-1878 | while a session is aligned, a node's back-link lists exactly the references its parent has collected in the session, or nothing when these are 32 |
| `Column.ChainExtended` | faststdb/storage/nbtree.cc:1865-1886 | the chain of a newly written node is the chain of its back-link and then the node |
| `Column.IndexCounts` | faststdb/storage/nbtree.cc:2640-2687 | a child's next fanout index is the number of its parent's references modulo 32 |
| `Column.CommitAll` | faststdb/storage/nbtree.cc:2994-3037 | writing a node, pushing its summary and starting a fresh node keeps the column well formed, its contents and its alignment |
| `Column.AddRefStep` | faststdb/storage/nbtree.cc:2982-2992 | adding a reference to an extent with room keeps the column well formed |
| `Column.NewLevel` | faststdb/storage/nbtree.cc:3534-3575 | a new top level with one reference keeps order, contents and alignment |
| `Heights.FullShape` | faststdb/storage/nbtree.cc:2982-3037 | a reference pushed to a level that holds 32 takes them up to the next level and is the first of the fresh node |
| `Heights.BumpCounts` | faststdb/storage/nbtree.cc:2982-3037 | a push counts one, where a reference of one level counts as 32 of the level below |
| `Heights.HeightOf` | faststdb/storage/nbtree.cc:3534-3575 | the number of leaves below a column that was created empty says how many levels it has |
| `Recovery.RepairStatusMeaning` | faststdb/storage/nbtree.cc:4016-4023 | the status is OK if and only if all rescue points but the last are empty and the last is not |
| `Recovery.CrashLosesOnlyTheOpenLeaf` | faststdb/storage/nbtree.cc:3706-3770 | in a first session, and in a reopened one until it gets a new level, the rescue points alone hold every committed point, in order and once: the contents without the open leaf |
| `Recovery.ChainsHoldTheLevels` | faststdb/storage/nbtree.cc:3559-3574 | in such a session the back-link chains from the rescue points hold the contents of the levels above |
| `Recovery.RebuiltAll` | faststdb/storage/nbtree.cc:3706-3770 | a rebuilt column holds exactly the points of the chains |
| `Recovery.FollowingStep` | faststdb/storage/nbtree.cc:3734-3768 | following one back-link adds one reference in front of those already found |
| `Recovery.RepairedAlignment` | faststdb/storage/nbtree.cc:3706-3770 | a repaired column is aligned as in a first session if and only if every chain it came from was empty or full |
| `Recovery.AnyCrashCanStart` | faststdb/storage/nbtree.cc:3772-3785 | in every session, at any time, the rescue points are ones that `init` can start from |
| `Recovery.CommitSaved` | faststdb/storage/nbtree.cc:2994-3037 | in any session, after a commit the rescue points hold the chain of the written node and what the push left above it |
| `Recovery.PaddedOk` | faststdb/storage/nbtree.cc:3706-3770 | repair of a chain without a level above it adds one, and the rescue points hold the same points |
| `Recovery.AppendKeepsOrder` | faststdb/storage/nbtree.cc:3452-3486 | a point that is not late keeps the contents sorted |
| `Recovery.NewestTimestamp` | faststdb/storage/nbtree.cc:3666-3681 | scanning backwards from the end of time finds the newest timestamp |
| `Closing.ClosedRoot` | faststdb/storage/nbtree.cc:3969-4005 | the list left by closing is all empty and then one root, and recovers the old contents |
| `Closing.CommittedUp` | faststdb/storage/nbtree.cc:3974-3980 | one final commit moves all points above the current index, also when a level appears |
| `NBTree.ExtentsList.Append` | faststdb/storage/nbtree.cc:3452-3486 | late if and only if older than `last` (or as old, without duplicates), which in an ordered column is the newest point; a late write changes nothing, any other adds its point at the end; a flush is due exactly when the open leaf refuses the point; what a crash would then leave; order is kept, and so is the alignment of a session, until a reopened column gets a new level |
| `NBTree.ExtentsList.LeafAppend` | faststdb/storage/nbtree.cc:2621-2637 | one point more at the end of the contents, into the open leaf if it takes it, and otherwise into a fresh one after a commit |
| `NBTree.ExtentsList.CommitLeaf` | faststdb/storage/nbtree.cc:2640-2687 | the leaf is stored and its summary pushed, or becomes the root when closing without a parent |
| `NBTree.ExtentsList.SBlockAppend` | faststdb/storage/nbtree.cc:2982-2992 | the reference is added, after a commit if and only if the superblock holds 32 or more; the number of references on every level afterwards; contents and alignment are kept |
| `NBTree.ExtentsList.CommitSBlock` | faststdb/storage/nbtree.cc:2994-3037 | the superblock is stored and its summary pushed up, or becomes the root; the recursion ends at the top level |
| `NBTree.ExtentsList.AppendSubtree` | faststdb/storage/nbtree.cc:3534-3575 | the reference lands in its parent level, which is created when missing |
| `NBTree.ExtentsList.Init` | faststdb/storage/nbtree.cc:3772-3785 | starts empty, opens or repairs by the rescue points; the contents are those recovered; `last` is the newest timestamp exactly when the column was closed, is empty, or holds nothing newer than 0 |
| `NBTree.ExtentsList.Open` | faststdb/storage/nbtree.cc:3577-3683 | restores the contents and the newest timestamp from one root, whether leaf or superblock |
| `NBTree.ExtentsList.CreateEmptyExtents` | faststdb/storage/nbtree.cc:3685-3704 | one empty extent per level, a leaf below superblocks |
| `NBTree.ExtentsList.Repair` | faststdb/storage/nbtree.cc:3706-3770 | rebuilds every level from its chain, with one more level above a top chain that is not empty, and writes no block |
| `NBTree.ExtentsList.FollowBack` | faststdb/storage/nbtree.cc:3734-3768 | one step along a chain, to a smaller address |
| `NBTree.ExtentsList.InsertBackwards` | faststdb/storage/nbtree.cc:3723-3733 | inserts a chain in the order it was written |
| `NBTree.ExtentsList.Close` | faststdb/storage/nbtree.cc:3969-4005 | returns all empty and one root when anything was written, keeps the contents, and can be opened again |
| `NBTree.ExtentsList.CommitDirty` | faststdb/storage/nbtree.cc:3974-3985 | the loop over dirty extents ends with all points under one stored root |
| `NBTree.ReopenedAlignment` | faststdb/storage/nbtree.cc:3618-3648 | a column reopened from a root above the leaves is never aligned as in a first session, but as one that starts with the references of the root; one reopened from a single leaf is aligned as in a first session |
| `Sessions.InOrderAllAccepted` | faststdb/storage/nbtree.cc:3452-3486 | nothing in a run that is in order is refused |
| `Sessions.AppendAll` | faststdb/storage/nbtree.cc:3452-3486 | a run of appends adds exactly the points that are not late, in order, and commits a leaf for every point that the open leaf refuses |
| `Sessions.CrashAndRecover` | faststdb/storage/nbtree.cc:3706-3785 | after a crash in any session: the new column holds what was saved, and what it measures late writes against; in a first session, and in a reopened one until it gets a new level, the open leaf is lost and nothing else |
| `Sessions.RunAndCrash` | faststdb/storage/nbtree.cc:3452-3770 | for every run of appends into a new column: the accepted points are the recovered ones followed by what fits one leaf |
| `Sessions.RunAndGrow` | faststdb/storage/nbtree.cc:2982-3575 | for every run of appends into a new column: two levels for 1 to 32 filled leaves, three for 33 to 1056, and in general the number of leaves in bijective base 32 |
| `Sessions.CloseAndReopen` | faststdb/storage/nbtree.cc:3577-4005 | same contents and same newest timestamp after closing and opening again, and aligned by the root it was opened from |
| `Sessions.ReopenRunAndCrash` | faststdb/storage/nbtree.cc:3452-4005 | for every column, closed and opened again, and every run of appends: a crash loses what fits one leaf, unless the root was above the leaves and the column has got another level |
| `Crashes.ClimbingCommit` | faststdb/storage/nbtree.cc:2640-3037 | in any session and at any depth, the commit of a leaf saves every level it climbs through with what the back-links reach, and leaves the rescue points from the first level with room on |
| `Crashes.CommitThrough` | faststdb/storage/nbtree.cc:2640-3037 | if the rescue points from the first level with room on hold what is there, nothing is doubled if and only if no open node on the way has a predecessor |
| `Crashes.CommitWithRoom` | faststdb/storage/nbtree.cc:2640-2687 | for a commit that climbs to a level with room, and if only the open nodes below were at risk: without predecessors further down, no other point is put at risk if and only if the topmost node on the way points back at what its rescue point reached; if it does, if and only if there are no predecessors further down |
| `Crashes.CommitOnFull` | faststdb/storage/nbtree.cc:2640-2687 | with every level full, what a crash leaves after the commit of a leaf; nothing is doubled if and only if no open node on any level has a predecessor |
| `Crashes.GrowthDoubles` | faststdb/storage/nbtree.cc:2640-3037 | a reopened column gets a new level: exactly the children that the copy of the root has collected since the reopen are saved twice; none if and only if the root had 32 children when it was opened |
| `Crashes.SecondCrash` | faststdb/storage/nbtree.cc:3706-3770 | for every repaired column: the first commit and another crash lose exactly the first chain that is not full; nothing if and only if it is empty |
| `Crashes.FirstCommitAfterReopen` | faststdb/storage/nbtree.cc:3577-3683 | for every reopened column the first commit puts nothing at risk |
| `CrashRuns.CrashTwice` | faststdb/storage/nbtree.cc:3452-3785 | for every column: crash, restart, one committed leaf and another crash bring back everything but the first chain that was not full, and the new leaf |
| `CrashRuns.LosingRun` | faststdb/storage/nbtree.cc:3452-3785 | four points and two crashes: the second recovery does not return what the first did |
| `CrashRuns.AppendAndCrash` | faststdb/storage/nbtree.cc:3452-3785 | any append to a reopened column and a crash: a new level is opened if and only if the leaf refuses the point and every level is full; without one only the open leaf is lost, with one the children since the reopen come back twice |
| `CrashRuns.DoublingRun` | faststdb/storage/nbtree.cc:3452-4005 | a run with a reopen and a crash after which the column holds more points than were appended |
| `CrashRuns.LateWriteAfterCrash` | faststdb/storage/nbtree.cc:3452-3785 | a crash after which an older point is accepted and the column is out of order |
| `CrashRuns.EmptyAnswerAfterCrash` | faststdb/storage/nbtree.cc:811-874 | a range without points is not answered before the crash and answered after it |
| `Scan.SelectMeaning` | faststdb/storage/nbtree.cc:240-296 | the reference selection keeps every point of [begin, end), or of (end, begin] when that is the order, and no other, each as often as it occurs |
| `Scan.SelectSorted` | faststdb/storage/nbtree.cc:240-296 | the selection ascends when begin < end and descends otherwise |
| `Scan.NewLeafIter` | faststdb/storage/nbtree.cc:240-296 | a new leaf iterator still has to return exactly the selected points of the leaf |
| `Scan.LeafRead` | faststdb/storage/nbtree.cc:298-316 | returns a prefix of what is left; a short read exhausts it |
| `Scan.OutOfRangeIsEmpty` | faststdb/storage/nbtree.cc:463-468 | a subtree that is skipped holds no selected point |
| `Scan.MakeIter` | faststdb/storage/nbtree.cc:629-656 | the iterator of a child returns the child's selected points |
| `Scan.GetNextIter` | faststdb/storage/nbtree.cc:538-573 | moving to the next child loses nothing; no data only after the last |
| `Scan.SBlockRead` | faststdb/storage/nbtree.cc:575-606 | returns the next points across children; short only when nothing is left, at every depth |
| `Scan.ChainRead` | faststdb/storage/operators/scan.cc:9-34 | returns the next points across iterators in turn |
| `Scan.Drain` | faststdb/storage/nbtree.cc:575-606 | with any non-zero buffer sizes, everything that was pending |
| `ColumnScan.SearchForward` | faststdb/storage/nbtree.cc:3787-3812 | iterators from the top extent down hold the selected points in ascending order |
| `ColumnScan.SearchBackward` | faststdb/storage/nbtree.cc:3787-3812 | iterators from the leaf up hold them in descending order |
| `ColumnScan.Query` | faststdb/storage/nbtree.cc:3787-3812 | a query returns exactly the selection of the column's contents |
| `Summaries.CombineSummaries` | faststdb/storage/operators/operator.cc:80-99 | combining summaries of consecutive runs summarises both; `last` is the value of a point at the newest timestamp, and the newest when these values agree |
| `Summaries.CombineRun` | faststdb/storage/operators/aggregate.cc:16-59 | the same for any number of runs |
| `Summaries.LastOverCuts` | faststdb/storage/operators/operator.cc:80-99 | the values that `last` can have over all ways to cut a run are exactly those at the newest timestamp |
| `Summaries.LastExact` | faststdb/storage/operators/operator.cc:80-99 | the combined aggregate is the fold of the run however it is cut if and only if the values at the newest timestamp agree |
| `AggregateQuery.DoTheMath` | faststdb/storage/operators/operator.cc:24-49 | the loop computes the fold |
| `AggregateQuery.NewLeafAgg` | faststdb/storage/nbtree.cc:811-832 | a leaf aggregator reports on the selected points of its leaf, by its header when the leaf lies inside, which an empty leaf always seems to |
| `AggregateQuery.ReadLeaf` | faststdb/storage/nbtree.cc:838-874 | a value if and only if points are left or the header was to be reported; it summarises what is left |
| `AggregateQuery.MakeIter` | faststdb/storage/nbtree.cc:996-1033 | a cached summary stands in only for a subtree inside the range |
| `AggregateQuery.FillBuffer` | faststdb/storage/nbtree.cc:575-606 | the slots summarise consecutive runs of the points left |
| `AggregateQuery.ReadSBlock` | faststdb/storage/nbtree.cc:948-994 | one summary of all points left under the superblock |
| `AggregateQuery.CombineRead` | faststdb/storage/operators/aggregate.cc:16-59 | one summary over all iterators; none if and only if there is no point and no header to report |
| `AggregateQuery.Aggregate` | faststdb/storage/nbtree.cc:3879-3904 | a forward aggregate of a column summarises its raw points in [begin, end); there is one if and only if there is such a point or the open leaf is empty |
| `Buckets.QuotientIsDivision` | faststdb/storage/nbtree.cc:1162-1164 | the bucket number by repeated subtraction is unsigned division |
| `Buckets.BinMeaning` | faststdb/storage/nbtree.cc:1162-1164 | the bucket of a timestamp is its distance from the start of the range, divided by the step |
| `Buckets.InBinMeaning` | faststdb/storage/nbtree.cc:1119-1186 | a bucket holds every point of its step of the time axis and no other, each as often as it occurs |
| `Buckets.WrappedIsNotPicked` | faststdb/storage/nbtree.cc:1394-1421 | a subtree that starts before the range is picked only if one over the whole time axis is |
| `Buckets.ShortcutExact` | faststdb/storage/nbtree.cc:1394-1421 | over all subtrees up to a timestamp: every subtree taken as one summary lies inside the range if and only if the one from 0 to that timestamp is not taken, or cannot start before the range |
| `Buckets.SafeBelow63Bits` | faststdb/storage/nbtree.cc:1394-1421 | while timestamps stay below 2^63 no query takes a wrong subtree |
| `Buckets.ShortcutFailsAbove63Bits` | faststdb/storage/nbtree.cc:1394-1421 | a query for which the shortcut takes a subtree that is not inside the range |
| `Buckets.RunIsItsBucket` | faststdb/storage/nbtree.cc:1119-1186 | cut into runs with growing buckets, each run is all points of its bucket |
| `Buckets.OtherBucketsAreEmpty` | faststdb/storage/nbtree.cc:1119-1186 | a bucket without a run holds no point |
| `Buckets.MergeInto` | faststdb/storage/nbtree.cc:1318-1345 | merging new slots into the read buffer joins only slots of one bucket |
| `GroupAggregate.GroupPoints` | faststdb/storage/nbtree.cc:1119-1186 | points cut into one summary per bucket, in order |
| `GroupAggregate.NewLeafGroup` | faststdb/storage/nbtree.cc:1076-1113 | a leaf inside one bucket is answered by its header, any other by its points |
| `GroupAggregate.ReadLeaf` | faststdb/storage/nbtree.cc:1119-1186 | summaries of leading buckets, and what is left |
| `GroupAggregate.PickedSubtree` | faststdb/storage/nbtree.cc:1394-1421 | a picked subtree's summary is the summary of its selected points, all in one bucket |
| `GroupAggregate.RefillReadBuffer` | faststdb/storage/nbtree.cc:1280-1357 | after a refill the buffer is full or everything is in it; nothing is lost |
| `GroupAggregate.CopyTo` | faststdb/storage/nbtree.cc:1240-1278 | hands out only complete buckets, whatever straddles the 256-slot buffer |
| `GroupAggregate.Read` | faststdb/storage/nbtree.cc:1363-1379 | an empty buffer is refused and changes nothing; otherwise leading buckets and what is left |
| `GroupAggregate.GroupAggregate` | faststdb/storage/nbtree.cc:1191-1421 | draining the aggregator of one superblock with any buffer sizes lists each non-empty bucket once, in order, with the summary of all its points |
| `ColumnGroup.ReadIter` | faststdb/storage/operators/aggregate.cc:201-252 | one extent is read into the buffer; a bucket split between extents is joined |
| `ColumnGroup.Refill` | faststdb/storage/operators/aggregate.cc:177-252 | after a refill two slots are filled or every extent is read; nothing is lost |
| `ColumnGroup.ReadOperator` | faststdb/storage/operators/aggregate.cc:139-174 | hands out only complete buckets across extents; fewer than asked for only when nothing is left |
| `ColumnGroup.StampMeaning` | faststdb/storage/operators/aggregate.cc:164-168 | the timestamp of a bucket is its start: the largest whole number of steps from the start of the range that is not after its first point |
| `ColumnGroup.GroupColumn` | faststdb/storage/nbtree.cc:3906-3928 | a forward group-aggregate of a column lists each non-empty bucket of its raw points once, in order, with the summary of all its points and its start |
| `Bytes.LERoundTrip` | faststdb/storage/compression.h:711-722 | little-endian bytes read back as the number |
| `Bytes.LEAt` | faststdb/storage/compression.h:711-722 | the least significant byte comes first |
| `Bytes.ControlNibble` | faststdb/storage/compression.h:315-331 | the control nibble is the number of significant bytes |
| `Bytes.ByteLengthExact` | faststdb/storage/compression.h:315-331 | a number has at most n significant bytes if and only if it is less than 256^n |
| `Bytes.Leb64` | faststdb/storage/compression.h:97-119 | a base-128 number takes at most ten bytes |
| `Bytes.XorBack` | faststdb/storage/compression.h:1196-1200 | xor with the prediction twice gives the value back |
| `Chunks.Pair` | faststdb/storage/compression.h:315-343 | a pair takes 1 to 17 bytes and its control byte is never the 0xFF shortcut |
| `Chunks.ValuePair` | faststdb/storage/compression.h:1028-1043 | a pair of values takes 3 to 17 bytes and its flag byte is never 0xFF |
| `Chunks.ValueBytesEnough` | faststdb/storage/compression.h:1052-1094 | the flag keeps enough bytes of every difference to shift it back |
| `Chunks.ValueBytesShortest` | faststdb/storage/compression.h:1052-1094 | a difference takes at most n bytes if and only if it is less than 256^n or a multiple of 256^(8-n) |
| `Compression.KnownPair` | faststdb/storage/compression.h:315-331 | the bytes of the pair 1 and 256 |
| `Compression.KnownValuePair` | faststdb/storage/compression.h:1052-1094 | the bytes of the differences 1 and 0x3ff0000000000000 |
| `Compression.KnownBase128` | faststdb/storage/compression.h:31-90 | the bytes of 300 in base 128 |
| `Compression.KnownDiffs` | faststdb/storage/compression.cc:47-55 | what the predictor leaves of the values 3 and 5 |
| `Chunks.ChunkBytes` | faststdb/storage/compression.cc:155-162 | a chunk of 16 samples takes at most 282 bytes |
| `BlockWriter.ByteStream.PutByte` | faststdb/storage/volume.cc:64-72 | one byte more, in the flat buffer and in the component of a scattered block alike |
| `BlockWriter.ByteStream.PutRaw` | faststdb/storage/compression.h:604-611 | accepted if and only if there is room; the little-endian bytes are added |
| `BlockWriter.ByteStream.Encode` | faststdb/storage/compression.h:315-343 | the pair is added if and only if it fits |
| `BlockWriter.ByteStream.PutBase128` | faststdb/storage/compression.h:347-355 | the base-128 bytes are added if and only if they fit |
| `BlockWriter.ByteStream.PutChunk` | faststdb/storage/compression.h:368-391 | sixteen zeros take one byte; on overflow the position is restored |
| `BlockWriter.ByteStream.EncodeValue` | faststdb/storage/compression.h:935-982 | the bytes that the flag asks for are added if and only if they fit |
| `BlockWriter.TimeWriter.PutChunk` | faststdb/storage/compression.h:826-844 | the minimum delta and the lowered deltas, all modulo 2^64 |
| `BlockWriter.ValueWriter.PutChunk` | faststdb/storage/compression.h:1003-1046 | the differences from the predictions; the predictor moves with the values |
| `BlockWriter.DataBlockWriter.FlushChunk` | faststdb/storage/compression.cc:97-110 | with the margin left, a full write buffer always goes out |
| `BlockWriter.DataBlockWriter.Put` | faststdb/storage/compression.cc:88-121 | accepted if and only if 16 bytes are left, and stored uncompressed if and only if fewer than 304 are; the whole new state |
| `BlockWriter.DataBlockWriter.Commit` | faststdb/storage/compression.cc:123-153 | every accepted sample is in the stream, none is lost |
| `BlockWriter.CountersFit` | faststdb/storage/compression.cc:123-153 | the 16-bit counters never overflow |
| `BlockWriter.Lockstep` | faststdb/storage/compression.h:1286-1451 | for every run of samples the vectored writer takes the decisions of the flat writer and writes the same bytes |
| `BlockReader.ByteReader.Next` | faststdb/storage/compression.h:669-698 | returns the next number of the chunk it was written in |
| `BlockReader.TimeReader.Next` | faststdb/storage/compression.h:879-889 | returns the next timestamp |
| `BlockReader.ValueReader.Next` | faststdb/storage/compression.h:1174-1201 | returns the next value, and the predictor stays in step with the writer's |
| `BlockReader.DataBlockReader.Next` | faststdb/storage/compression.cc:197-218 | returns every sample in turn and then no data |
| `BlockReader.RoundTrip` | faststdb/storage/compression.cc:88-218 | what a block accepts is what is read back, in order, whatever the rest of the buffer holds; a sample is refused only after 16 for every 282 bytes |
| `BlockReader.RoundTripScattered` | faststdb/storage/compression.h:1286-1545 | the same for a scattered block, read from its components |
| `LeafCodec.PutDecides` | faststdb/storage/nbtree.cc:1841-1863 | whether the block writer takes a sample is a function of the samples before |
| `LeafCodec.WriteSamples` | faststdb/storage/nbtree.cc:1672-1863 | the writer of a leaf takes all points that the function accepts one after the other |
| `LeafCodec.LeafRoundTrip` | faststdb/storage/nbtree.cc:1816-1839 | the points of a leaf written behind its header, committed and read back are the same bits |
| `LeafCodec.ReadSubtree` | faststdb/storage/nbtree.cc:1816-1839 | reading all leaves below a node gives its points in order |
| `LeafCodec.RunAndReadBlocks` | faststdb/storage/nbtree.cc:3452-4005 | for every run of appends and a close, the blocks of the tree read back through the codec are the accepted points |
| `BlockWriter.FullBlock` | faststdb/storage/compression.cc:88-121 | a block that refuses a sample holds at least 16 samples for every 282 bytes |
| `Compression.ThreeSettle` | faststdb/storage/compression.cc:47-55 | three equal differences bring the predictor, from any state, to the hash and the table entry of that difference |
| `Compression.SettledStep` | faststdb/storage/compression.cc:47-55 | from then on every prediction is right |
| `Compression.EvenChunk` | faststdb/storage/compression.h:711-1094 | a chunk that continues an evenly stepped series is the step in base 128 and two bytes: at most 12 bytes for 16 samples |
| `Compression.EvenFull` | faststdb/storage/compression.cc:88-162 | how many chunks of such a series a block holds at least when it refuses a sample |
| `Compression.EvenRun` | faststdb/storage/compression.cc:88-162 | a block of 4096 bytes takes every evenly stepped series of up to 4688 samples and gives it back |
| `IOVec.PlacedFlat` | faststdb/storage/volume.cc:64-72 | putting a byte overwrites one byte of the flat view, also when a component is allocated for it |
| `IOVec.IOVecBlock.Put` | faststdb/storage/volume.cc:64-72 | one byte more at the end of the contents |
| `IOVec.IOVecBlock.SafePut` | faststdb/storage/volume.cc:107-119 | refused if and only if the block is full |
| `IOVec.IOVecBlock.Get` | faststdb/storage/volume.cc:91-105 | the byte of the flat view, in either layout |
| `IOVec.IOVecBlock.Allocate` | faststdb/storage/volume.cc:74-89 | reserves bytes if and only if they fit in the current component |
| `IOVec.IOVecBlock.AppendChunk` | faststdb/storage/volume.cc:189-242 | the chunk is added at the end of the contents, across components; refused if and only if it would reach the last byte |
| `IOVec.IOVecBlock.ReadChunk` | faststdb/storage/volume.cc:153-187 | the bytes of the flat view; nothing exactly when a scattered read ends where the allocated components end |
| `IOVec.IOVecBlock.CopyFrom` | faststdb/storage/volume.cc:133-151 | the same flat view, from a block in either layout |
| `IOVec.StoreRoundTrip` | faststdb/storage/volume.cc:525-585 | a scattered block stored and read back has the same flat view |
| `IOVec.StoreWhole` | faststdb/storage/volume.cc:525-560 | a block that was read back is stored whole if and only if it is zero behind its first kilobyte |
| `IOVec.StoreWholeLoses` | faststdb/storage/volume.cc:525-560 | a block that loses a byte when it is stored again |
| `IOVec.AcceptsLikeFlat` | faststdb/storage/volume.cc:189-242 | the two layouts decide alike if and only if the chunk does not end at the last byte |
| `IOVec.LastByteIsRefused` | faststdb/storage/volume.cc:189-242 | the last byte of a block, which only the flat layout takes |
| `IOVec.AppendAndRead` | faststdb/storage/volume.cc:153-242 | a chunk reads back the same before and after a trip through a volume |
| `BlockRing.LogicRoundTrip` | faststdb/storage/block_store.cc:191-201 | generation and block number come back out of an address |
| `BlockRing.LogicParts` | faststdb/storage/block_store.cc:191-201 | the generation is in the upper 32 bits of an address |
| `BlockRing.GenerationOfVolume` | faststdb/storage/block_store.cc:157-189 | the generation of volume i is i modulo the number of volumes |
| `BlockRing.AddressesIncrease` | faststdb/storage/block_store.cc:203-224 | addresses grow in the order of the blocks |
| `BlockRing.LatestReadable` | faststdb/storage/block_store.cc:312-363 | with n equal volumes the latest (n - 1) * capacity blocks are in the last n fills |
| `BlockRing.FixedSizeStorage.HandleVolumeTransition` | faststdb/storage/block_store.cc:157-189 | the next volume starts empty with the next generation of its own |
| `BlockRing.FixedSizeStorage.AppendBlock` | faststdb/storage/block_store.cc:203-224 | a new address above all earlier ones |
| `BlockRing.FixedSizeStorage.ReadBlock` | faststdb/storage/block_store.cc:331-363 | an issued address gives its own block if its fill is among the last n, and is unavailable otherwise; no other address gives a block |
| `BlockRing.ExpandableStorage.AppendBlock` | faststdb/storage/block_store.cc:203-224 | the same, with volumes added |
| `BlockRing.ExpandableStorage.ReadBlock` | faststdb/storage/block_store.cc:396-427 | every issued address gives its own block for ever, and no other address gives one |
| `Crc32c.RawSplit` | faststdb/common/crc32c.cc:227-313 | bytes and register can be processed apart: the register through zeros, the bytes from zero, and then xor |
| `Crc32c.Chain` | faststdb/storage/block_store.cc:289-302 | the checksum of two pieces, continued, is the checksum of both |
| `Crc32c.TableIsZeros` | faststdb/common/crc32c.cc:49-72 | table k holds each byte followed by k zero bytes |
| `Crc32c.SliceByEight` | faststdb/common/crc32c.cc:88-100 | eight lookups are eight bytes of the bitwise definition |
| `Crc32c.CrcSw` | faststdb/common/crc32c.cc:77-106 | the software form is the bitwise definition, for every input and alignment |
| `Crc32c.MatrixTimes` | faststdb/common/crc32c.cc:113-125 | the loop that stops at the last set bit computes the whole product |
| `Crc32c.TimesLinear` | faststdb/common/crc32c.cc:113-125 | the product is linear in the vector |
| `Crc32c.SquareTwice` | faststdb/common/crc32c.cc:129-135 | the squared matrix applies the operator twice |
| `Crc32c.OneBitShifts` | faststdb/common/crc32c.cc:148-154 | the first matrix shifts in one zero bit |
| `Crc32c.ZerosOp` | faststdb/common/crc32c.cc:142-177 | for every length, the operator for as many zero bytes as its largest power of two |
| `Crc32c.ShiftIsZeros` | faststdb/common/crc32c.cc:181-200 | four lookups apply the operator |
| `Crc32c.ThreeWay` | faststdb/common/crc32c.cc:250-284 | three registers over three pieces, joined, are one pass |
| `Crc32c.CrcHw` | faststdb/common/crc32c.cc:227-313 | the three-way form is the bitwise definition, for every input and alignment |
| `Crc32c.DetectsBurst` | faststdb/storage/nbtree.cc:105-124 | damage confined to four consecutive bytes always changes the checksum |
| `CrcRemainder.PolyIsGenerator` | faststdb/common/crc32c.cc:42-55 | the constant of the program is the generator polynomial of CRC-32C without its leading term, in reversed bit order |
| `CrcRemainder.OneRemainder` | faststdb/common/crc32c.cc:42-55 | congruent polynomials of degree less than 32 are the same |
| `CrcRemainder.RawCongruent` | faststdb/common/crc32c.cc:42-106 | the register after a message is congruent to the register in front of it and the message, shifted |
| `CrcRemainder.CrcIsRemainder` | faststdb/common/crc32c.cc:77-313 | the checksum, complemented, is the only remainder of degree less than 32 of the message with 32 ones in front, modulo the generator; and continued from an earlier checksum |
| `CrcRemainder.KnownAnswer` | faststdb/common/crc32c.cc:77-313 | both implementations give 0xe3069283 for "123456789" |
| `Checksum.OfBlock` | faststdb/storage/block_store.cc:289-302 | the checksum over the components up to the first unallocated one, from the offset in the first |
| `Checksum.KnownAnswer` | faststdb/storage/block_store.cc:289-302 | over the bytes of a block, both implementations give the check value of CRC-32C |
| `Checksum.CommitAndCheck` | faststdb/storage/nbtree.cc:105-124 | the checksum stored by a commit is the one found when the block is read back, in either implementation |
| `Checksum.NoticesByte` | faststdb/storage/nbtree.cc:105-124 | a checksum over part of a block changes with a byte if and only if the byte is in that part and is different afterwards |
| `Checksum.ReadAndCheck` | faststdb/storage/nbtree.cc:107-124 | a block is accepted if and only if the checksum in its header is that of as many bytes behind the header as it says |
| `Checksum.NoticesChange` | faststdb/storage/nbtree.cc:107-124 | for any accepted block, which changes of one byte are noticed; another size moves the end of what is covered |
| `Checksum.SuperblockCovers` | faststdb/storage/nbtree.cc:2149-2170 | a committed superblock is accepted when it is read back; a change of one byte behind the header is noticed if and only if it is among as many bytes as there are references, one in the header if and only if it is in the checksum, and one of the size by the checksum of the range it then gives |
| `LogFrame.EntryReadsBack` | faststdb/storage/input_log.cc:327-343 | an index entry gives its length, offset and id |
| `LogFrame.IndexPlaces` | faststdb/storage/input_log.cc:327-361 | in an index entry the id comes first, then the length and the offset, each with its least byte first |
| `LogFrame.AppendedHolds` | faststdb/storage/input_log.cc:345-361 | an append that fits keeps every earlier entry and adds its own |
| `LogFrame.GuardCount` | faststdb/storage/input_log.cc:294-325 | `can_write` lets a blob through if and only if it, the blobs before, and 16 bytes for each of them, for it and for one more fit 8168 bytes; an empty frame takes 8152, an empty blob always passes |
| `LogFrame.GuardExact` | faststdb/storage/input_log.cc:294-325 | `can_write` lets through a blob that does not fit if and only if the blob is empty and no index entry is left |
| `LogFrame.EmptyBlobDestroys` | faststdb/storage/input_log.cc:294-361 | a full frame in which such an append destroys an entry |
| `LogFrame.ThresholdMakesGuardSound` | faststdb/storage/input_log.cc:364-392 | while 64 bytes can be written the guard is sound for every blob |
| `LogFrame.MutableEntry.GetSpaceAndOffset` | faststdb/storage/input_log.cc:296-315 | the end of the last blob, and the space left: 8136 bytes without the blobs and 16 bytes an entry, or 8152 for the first |
| `LogFrame.MutableEntry.CanWriteNow` | faststdb/storage/input_log.cc:320-325 | whether a blob is let through, by the bytes of the frame |
| `LogFrame.MutableEntry.Append` | faststdb/storage/input_log.cc:345-361 | one entry more, the others unchanged |
| `LogFrame.MutableEntry.ReadString` | faststdb/storage/input_log.cc:327-333 | the id and the bytes of an entry |
| `LogFrame.MutableEntry.ReadArray` | faststdb/storage/input_log.cc:335-342 | the id and the 64-bit words of an entry |
| `LogFrame.WordsReadBack` | faststdb/storage/input_log.cc:335-342 | rescue points written as bytes read back as the same points |
| `InputLog.NextMeaning` | faststdb/storage/input_log.cc:884-909 | the chosen shard has the smallest sequence number, the first of its kind; none only when all are done |
| `InputLog.MergeConserves` | faststdb/storage/input_log.cc:884-967 | the merge holds every readable frame of every shard once |
| `InputLog.MergeOrders` | faststdb/storage/input_log.cc:884-967 | if every shard is in order, so is the merge |
| `InputLog.AllInOrder` | faststdb/storage/input_log.cc:884-967 | without empty frames, all frames come back in the one order that their numbers say, however they are spread |
| `InputLog.ShardedInputLog.InitReadBuffers` | faststdb/storage/input_log.cc:869-882 | the first frame of every shard is read; nothing is lost |
| `InputLog.ShardedInputLog.ChooseNext` | faststdb/storage/input_log.cc:884-909 | the two loops find the shard to read next |
| `InputLog.ShardedInputLog.RefillBuffer` | faststdb/storage/input_log.cc:911-916 | the next frame of a shard takes the place of an exhausted one |
| `InputLog.ShardedInputLog.ReadNext` | faststdb/storage/input_log.cc:969-1056 | the next rows, as many as asked for unless the log ends; no data if and only if it ended |
| `InputLog.ReadMany` | faststdb/storage/input_log.cc:969-1056 | whatever the buffer sizes, the same rows in the same order |
| `LogWriter.LogWriter.FlushCurrentFrame` | faststdb/storage/input_log.cc:238-248 | the open frame is written with the next sequence number, even when it is empty |
| `LogWriter.LogWriter.RequireFrameType` | faststdb/storage/input_log.cc:250-258 | another type flushes the open frame first |
| `LogWriter.LogWriter.Append` | faststdb/storage/input_log.cc:260-403 | the row is logged behind the earlier rows of its shard; how many frames are written, by the bytes of the rows: a data frame at 340 rows, a flexible one when fewer than 64 bytes would be left; an empty frame is written if and only if the type changes while the open frame is typed and empty, and from then on no row of the shard will be recovered |
| `LogWriter.SameGuard` | faststdb/storage/input_log.cc:364-392 | the count of blobs and rows is the guard of the frame that holds them |
| `LogWriter.LogWriter.Flush` | faststdb/storage/input_log.cc:524-538 | rows in the open frame are written, an empty one is not |
| `LogWriter.MergeIsSurvivors` | faststdb/storage/input_log.cc:884-967 | recovery reads the frames in the order they were written, except those behind an empty frame of their shard |
| `LogWriter.Complete` | faststdb/storage/input_log.cc:884-909 | every written row is read if and only if no shard has a row behind an empty frame |
| `LogWriter.LogWriter.CloseAndRecover` | faststdb/storage/input_log.cc:228-1056 | over every run: all rows come back in write order if and only if no empty frame was written |
| `LogWriter.TypeChangeLosesRows` | faststdb/storage/input_log.cc:364-392 | two long names and then a data point: recovery returns the two names |
| `LogWriter.AdmittedFits` | faststdb/storage/input_log.cc:364-392 | every blob that `append_blob` lets through fits the frame, with its index entry |
| `LogWriter.FrameRoundTrip` | faststdb/storage/input_log.cc:364-490 | every frame of names or rescue points that is written in any run gives back its rows when its bytes are read |
| `LogWriter.ReachWrite` | faststdb/storage/input_log.cc:238-248 | writing a frame, empty or not, does not change which rows of a shard are recovered |
| `SeriesName.SkipSpace` | faststdb/index/seriesparser.cc:285-290 | the first position that is neither space nor tab |
| `SeriesName.CopyUntil` | faststdb/index/seriesparser.cc:306-329 | copies the token up to the first space that is not escaped |
| `SeriesName.SkipTag` | faststdb/index/seriesparser.cc:332-366 | an error if and only if the token has no '=' behind a name; otherwise the end of the token |
| `SeriesName.SortPred` | faststdb/index/seriesparser.cc:424-451 | compares two tags by their names in dictionary order: the first difference decides, and a name comes before those it is a prefix of |
| `SeriesName.PrefixFirst` | faststdb/index/seriesparser.cc:440-442 | a proper prefix comes first |
| `SeriesName.ParseTags` | faststdb/index/seriesparser.cc:401-422 | the first 32 tokens as tags, or the first that is none |
| `SeriesName.Sort` | faststdb/index/seriesparser.cc:452-453 | a permutation in which no tag is less than an earlier one |
| `SeriesName.ToCanonicalForm` | faststdb/index/seriesparser.cc:368-465 | which names are accepted, of up to 4096 characters; the metric and the first 32 tags in dictionary order of their names, no name behind one it is a prefix of; never longer than the name, and where the tags start |
| `SeriesName.FormFits` | faststdb/index/seriesparser.cc:379-385 | any order of the tags fits where the name fitted |
| `SeriesForm.SortedUnique` | faststdb/index/seriesparser.cc:424-453 | when a tag name stands for one tag there is one sorted order |
| `SeriesForm.OneOrder` | faststdb/index/seriesparser.cc:424-453 | there is one sorted order if and only if no tag name stands for two tags |
| `SeriesForm.TokensOfText` | faststdb/index/seriesparser.cc:285-329 | the tokens of words with blanks between them are the words if and only if a space comes first behind every word |
| `SeriesForm.TabsDoNotSeparate` | faststdb/index/seriesparser.cc:306-329 | a name in which a tab becomes part of the metric |
| `SeriesForm.OneForm` | faststdb/index/seriesparser.cc:368-465 | for any two accepted names in which a tag name stands for one tag: the same form if and only if the metric is the same and the tags are read back as the same |
| `SeriesForm.SameForm` | faststdb/index/seriesparser.cc:368-465 | two spellings, with tags in any order and any such blanks, in each of which a tag name stands for one tag: the same form if and only if the metric is the same and the first 32 tags are read back as the same; without a tag that ends in an escape, unless it has the greatest name, if and only if metric and tags are the same |
| `SeriesForm.EscapeAtTheEndCollides` | faststdb/index/seriesparser.cc:368-465 | "c b=2 a=\" and "c a=\ b=2" are accepted with different tags, and both have the form "c a=\ b=2" |
| `SeriesForm.RepeatedNameHasTwoForms` | faststdb/index/seriesparser.cc:424-453 | "c a=1 a=2" and "c a=2 a=1" have the same metric and tags, and each is sorted as it stands |
| `SeriesForm.FormReadsBack` | faststdb/index/seriesparser.cc:368-465 | the tokens of a form are its metric and its tags if and only if no tag but the last ends in an escape |
| `SeriesForm.RereadForm` | faststdb/index/seriesparser.cc:368-465 | parsing a form gives back its metric and its tags, or joins the one that ends in an escape with the next |
| `SeriesForm.Twice` | faststdb/index/seriesparser.cc:368-465 | for every name in which a tag name stands for one tag: the form is accepted and is its own form, and it has the tags of the name if and only if no tag ends in an escape, unless it has the greatest name |

## Left out

- Reads into an empty buffer of the point iterators and of the aggregators: `read` is modelled for non-zero sizes there.
- Backward aggregates and backward group-aggregates.
- The timestamps that the superblock aggregator puts beside its result.
- `FanInAggregateOperator`: group-aggregates over several columns.
- Value filters, candlesticks, binary events, the split experiment, and the query processor: they would add members of the same kind.
- Retention: a tree over a ring that recycles its blocks, and reopening a ring.
- Volumes of more than 2^20 blocks, where the 32-bit byte offset wraps.
- The block cache, the in-memory store, and locks.
- Decoding a leaf inside the iterators: they read the points of a leaf; that its bytes give these points back is `LeafCodec`.
- Rotation of log volumes, stale ids, and read errors other than the end of a shard.
- Log frames of type EMPTY that hold rows: no writer makes one.
- Sorting tag pointers in the array itself: the pointers are a sequence, and the order of equal names is left open as `std::sort` leaves it.
- Sessions.CrashAndRecover: states that only the open leaf is lost for aligned sessions, because after a repair, and once a reopened column has a new level, a commit can put more out of reach or save it twice; what is then left is stated through the rescue points.
- AggregateQuery.Aggregate: states that `last` is the newest value when the values at the newest timestamp in the range agree, and one of them otherwise, because which one `combine` keeps depends on where leaves and skipped subtrees meet.
- GroupAggregate.GroupAggregate: states `last` of a bucket in the same way.
- ColumnGroup.GroupColumn: states `last` of a bucket in the same way, and takes queries for which the shortcut is right.
- Checksum.SuperblockCovers: takes changes of the payload size that stay inside the block, because the code does not check the size before it reads.
- BlockRing.FixedSizeStorage.AppendBlock: does not model the overflow of the 32-bit generation.
