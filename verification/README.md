# NILFS user-space tools: a verified model

NILFS keeps its data in a log of segments and never overwrites in place. Checkpoints name the states of
the file system, and some of them are kept for good as snapshots. The tools modelled here decide, from
outside the kernel, what may be forgotten: `cleanerd` turns a protection period into a checkpoint number,
picks segments, reads their logs, judges every block, and tells the kernel which blocks to move and which
numbers to delete. `mkfs` writes the first log that these readers read, and `lscp` lists checkpoints.

The model follows the C code branch by branch and states what the code achieves in terms that do not
mention its loops. The kernel is an oracle: a fixed ascending list of checkpoints, usage information of
segments, lives of virtual blocks and current blocks of the DAT. Requests to it may fail at any time.

| Files | What they model |
|---|---|
| `Checkpoints`, `CheckpointWalk` | the checkpoint query with its cached lower bound, and the two enumerations over it |
| `Spans`, `CpScan`, `CpAge`, `Cnormap` | the reverse mapper from a protection period to a checkpoint number, and its history |
| `Lscp` | listing checkpoints and snapshots |
| `Arithmetic`, `Layout`, `Bytes`, `Crc32`, `SegmentFormat` | record placement, little-endian numbers, the checksum, the records of a summary |
| `SegmentReader`, `BlockCollect` | the iterators over logs, files and blocks, and the descriptors collected with them |
| `Vectors`, `Bitmaps` | the resizable array, bit operations, block-grouped files and the DAT of mkfs |
| `MkfsLayout`, `MkfsWriter`, `MkfsCommit`, `MkfsInodes`, `MkfsMain`, `MkfsInitial`, `RoundTrip` | laying out and writing the first segment, and reading it back |
| `GcLiveness`, `GcPeriods`, `GcToss`, `GcSelect`, `GcReclaim`, `GcProtect` | the collector: judgement, tossing, unifying, selecting, reclaiming, and what a protection period protects |
| `CleanerState`, `CleanerPass`, `Cleanerd` | the state machine of the cleaner daemon, what each pass and message achieves, and the object |

`Wrappers` holds the option type. `dafny verify dfyconfig.toml` checks everything.

## What is proved

1. **Search.** The accelerating and decelerating window search of the backward enumeration makes exactly
   the plain descending walk, for any callback, and terminates; the cached lower bound never changes an
   answer. A fresh scan answers the oldest checkpoint within the period, a clock rewind counting as 1. A
   cached search and a backward extension separate the recorded checkpoints within the period from those
   that are too old, whatever the kernel has deleted since they were recorded; on a history whose span ends
   are still there the answer is the oldest checkpoint within the period. No answer is above the number
   of a checkpoint within the period (`Cnormap.AnswerProtects`). Measured by the clock, a cached answer
   protects every checkpoint younger than the period, and it is the answer of a fresh scan at that time
   unless the clock went back (`Cnormap.Mapper.TrackBack`); over any run of calls and kernel steps the
   recorded elapsed time is exact, the spans stay sound, and every answer protects what is younger
   (`Cnormap.Run`).
2. **Collection.** Whatever bytes the segments hold, no block is collected twice. The judgement with its
   binary search and its cached last hit equals its plain meaning. Tossing in place is an order-preserving
   filter, unifying keeps the covered numbers with the fewest periods that can, no period handed to the
   kernel holds a snapshot or a protected checkpoint, and no freed block is one that these need, given that
   a block's life starts no earlier than its own checkpoint; every other block is freed, and exactly the
   segments that are dirty, inactive, without error and old enough are reclaimed
   (`GcReclaim.Reclaimer.Xreclaim`). So one call of the daemon, from the protection period to the request,
   deletes no snapshot and no checkpoint within the period (`GcProtect.CleanSegments`).
3. **Format.** For every list of files that mkfs completes, whose log ends within the first segment and
   whose summary fits in one block, the iterators accept the summary that it writes and yield exactly the
   files with blocks, in order, with the same blocks and numbers, and the collector gets exactly one
   descriptor for each block, with its file, its number and its offset (`RoundTrip.MakeThenCollect`). For
   files of any log, each descriptor holds what the bytes of the block information say
   (`BlockCollect.AccBlocksFile`). All this holds of the files of mkfs itself, however small
   blocks and segments are (`MkfsInitial.InitialFilesFit`). Every virtual number resolves through the DAT to
   its block. The two closed forms and the record-by-record placement agree. The table-driven checksum is
   division by the polynomial, and it detects every burst of up to four bytes.
4. **Daemon.** A manual run without a lack of memory and without another run command that starts ends for
   every behaviour of the surroundings, whatever other messages arrive and whatever configurations are
   loaded meanwhile, if and only if no fallback is pending or nothing is left to do. A suspended daemon
   selects nothing until it is woken. With the clean check on, a daemon at rest selects nothing as long as
   clean segments do not run short, and an automatic one pauses once there are more of them than wanted.
   What each pass does to the speed, the counters, the flags and the time of the next pass, and what each
   message sets, is stated field by field (`CleanerPass.StepAchieves`).
5. **Listing.** `lscp` prints, newest or oldest first, each wanted checkpoint up to or from the requested
   number once, and leaves one out only when the requested lines are used up.

## Where the code does less than its comments or callers suggest

- `track_back` with a period that ends exactly at the start of the recorded history answers the oldest
  recorded checkpoint; that is the oldest one within the period if and only if no older checkpoint shares
  its time (`Cnormap.EqualPeriodExact`; `Cnormap.EqualPeriodMisses` has a list, with the history that a scan
  records from it, on which it does not hold).
- The forward extension starts its count from the width of the newest span, so it may answer a number that
  is too old, never one that is too new (`Cnormap.ForwardNeverTooNew`, `Cnormap.ForwardExactIf`,
  `Cnormap.ForwardTooOldOtherwise`).
- `fix_disk_layout` compares the log with the length of a segment, but the first segment starts some blocks
  later. The reader accepts the log if and only if it ends within the segment (`RoundTrip.LogAccepted`);
  `MkfsInitial.StartOverlooked` gives a layout that passes the check and does not.
- Blocks are allocated one by one, but the summary checksum is read from the address of the first one on.
  It is right, whatever lies behind that block in memory, if and only if the summary fits in it
  (`MkfsCommit.SummedIff`, `RoundTrip.SumRightIff`); otherwise the reader passes over the log without an error
  (`RoundTrip.NothingReadBack`). `MkfsInitial.LongSummary` gives such a layout.
- A file whose number occurs twice, a missing reserved file, a file of more than six blocks, or an ifile or
  cpfile too small for what is put there makes mkfs use memory that is not its own; it completes if and
  only if there is none (`MkfsInodes.PrepareFiles`).
- The DAT gets room for as many entries as numbers are assigned, but number 0 is reserved: assignment
  succeeds if and only if the count does not fill its blocks exactly (`Bitmaps.DatCapacity`). This and
  the three previous points concern the functions alone: the list of files that mkfs passes to them, the
  only one it has, reaches none of them (`MkfsInitial.InitialFilesFit`).
- A mapped segment is shown from the page boundary below its start on, because the offset within the page
  is not added to the address (`SegmentReader.GetSegment`, `SegmentReader.ShownExactly`). The first segment
  is shown from its start on if and only if pages are no larger than 4096 bytes or a block
  (`RoundTrip.FirstSegmentAligned`), later ones unless pages are larger than segments
  (`RoundTrip.LaterSegmentsAligned`).
- The writer's closed form is exact except in one case (`Layout.ClosedFormExact`), which the record sizes
  in use exclude.
- A fallback flag left over from a lack of memory keeps a manual run going for ever
  (`CleanerState.StaleFallback`), a resumed daemon is always idle (`CleanerState.SuspendResume`), and the
  halving for a retry never changes the number of segments that is in use (`CleanerState.HalvesTheOther`).

## Model

| member | source | states |
|---|---|---|
| Checkpoints.Nilfs.GetCpinfo | lib/nilfs.c:643-675 | a successful checkpoint query answers the first `count` checkpoints from the number asked for, although the number is clamped to the cached minimum; the minimum only rises and stays a lower bound |
| CheckpointWalk.EnumBackward | lib/cnormap.c:208-350 | the callback is called on exactly the checkpoints below the start bound, newest first, none skipped or repeated, until the count or the callback ends the walk; a failed query cuts that walk short |
| CheckpointWalk.EnumForward | lib/cnormap.c:134-188 | the same upwards from the start number |
| CheckpointWalk.MoveSound | lib/cnormap.c:249-318 | a move of the window search that visits nothing loses no checkpoint and brings the search nearer to its end; when it finishes, none is left |
| CheckpointWalk.TakeSound | lib/cnormap.c:319-342 | what is visited is a slice of the list that covers the whole window |
| CheckpointWalk.WalkDownSplit | lib/cnormap.c:322-342 | a descending walk can be cut at any point and taken up again |
| Spans.TotalIsDist | lib/cnormap.c:428-431 | in an intact history the sum of widths and gaps is the distance between the oldest and the newest checkpoint |
| Spans.Recorded | lib/cnormap.c:467-512 | every checkpoint that the kernel still has between the start of the history and its end lies in a recorded span |
| Spans.AllWithin | lib/cnormap.c:894-899 | in a history no longer than the period, no recorded checkpoint is too old, so its start is the answer |
| Spans.SplitsAtGap | lib/cnormap.c:747-763 | when the target falls between two spans, the start of the newer one separates the recorded checkpoints that are too old from the others, whatever the kernel has deleted |
| Spans.SplitsAtSpan | lib/cnormap.c:769-790 | when the target falls inside a span, a number that separates its checkpoints by time separates those of the whole history |
| Spans.GrowOldest | lib/cnormap.c:467-512 | taking an older checkpoint into the oldest span keeps the spans sound and the total exact |
| Spans.AppendOldest | lib/cnormap.c:481-500 | opening a new oldest span does so too |
| Spans.GrowNewest | lib/cnormap.c:529-560 | the same for the newest span |
| Spans.InsertNewest | lib/cnormap.c:541-557 | the same for a new newest span |
| Spans.TrimOldest | lib/cnormap.c:790-807 | cutting the oldest span at one of its checkpoints keeps the spans sound and subtracts exactly the time that is cut off |
| Spans.OldestUnique | lib/cnormap.c:433-513 | at most one checkpoint is the oldest within a period |
| CpScan.ScanBackwardStep | lib/cnormap.c:467-512 | one call of the backward callback records the checkpoint, keeps the elapsed time exact, and stops just when the period is exceeded |
| CpScan.ScanBackwardKeeps | lib/cnormap.c:433-513 | whatever the kernel has kept, a backward scan keeps the record sound and, if it was intact, intact |
| CpScan.ScanBackwardFinds | lib/cnormap.c:433-513 | a backward scan from an intact record finds the oldest checkpoint within the period |
| CpScan.ScanBackwardSplits | lib/cnormap.c:433-513 | from any sound record, its answer separates the checkpoints recorded by then into those within the period and those too old, and it stops only at one that is too old or at the oldest checkpoint |
| CpScan.ScanBackwardExtends | lib/cnormap.c:467-512 | a backward scan leaves all spans as they are but the oldest, which may only start earlier, and adds older ones |
| CpScan.OldestAdded | lib/cnormap.c:467-512 | when recording one more checkpoint exceeds the period, the start of the history before it separates the recorded checkpoints within the period from those that are too old |
| CpScan.ScanForwardStep | lib/cnormap.c:515-568 | one call of the forward callback records the checkpoint, keeps the elapsed time exact, and stops at the target |
| CpScan.SpansFill | lib/cnormap.c:467-568 | in either direction, unless the clock stands still, a recorded span takes in one more checkpoint just when it is not full and the clock does not turn |
| CpScan.ScanForwardFinds | lib/cnormap.c:515-568 | from any sound span a forward scan finds the first checkpoint that moves the clock and reaches the target from the start of the span |
| CpScan.FindWalk | lib/cnormap.c:700-716 | the search callback stops at the first checkpoint that is late enough or beyond the span, and remembers the one before |
| CpScan.SearchInGap | lib/cnormap.c:747-763 | in an intact history and a target between two spans, the start of the newer one is the first checkpoint that far from the start of the history |
| CpScan.SearchInSpan | lib/cnormap.c:769-790 | in an intact history and a target inside a span, the first checkpoint late enough is |
| CpScan.FirstIsOldest | lib/cnormap.c:873-884 | far enough from the start of the history means oldest within the rest of the period |
| CpScan.ScanFromInit | lib/cnormap.c:440-458 | the first scan records an intact history and finds the oldest checkpoint within the period, or none |
| Cnormap.Mapper.InitHistory | lib/cnormap.c:578-613 | the first call records a sound, intact history and answers rightly |
| Cnormap.Mapper.ExtendBackward | lib/cnormap.c:660-690 | extending any sound history backward separates the recorded checkpoints within the period from those that are too old, by a number within the history, and goes back far enough; from an intact one it answers the oldest checkpoint within the period |
| Cnormap.Mapper.ExtendForward | lib/cnormap.c:615-658 | trims to the newest span and extends it, and takes the present as the new base; the history stays sound, and the answer is the first newer checkpoint that reaches the target from the start of that span |
| Cnormap.Mapper.Search | lib/cnormap.c:725-813 | in every sound history, whatever the kernel has deleted since, the answer lies in the history and separates the recorded checkpoints at least `period` after its start from those before; in an intact one it is the oldest of the former, and the trimmed history still starts before it |
| Cnormap.Mapper.FindInSpan | lib/cnormap.c:769-807 | the part of the search inside one span, with the trimmed span and its elapsed time, for every sound history |
| Cnormap.SearchedSplits | lib/cnormap.c:769-790 | the answer of the callback inside a span separates the recorded checkpoints, although those at its ends may be deleted |
| Cnormap.Mapper.TrackBack | lib/cnormap.c:825-903 | every call keeps the history sound and, if it was, intact; but for the forward extension, the answer separates the recorded checkpoints by their recorded distance from now. With an intact history that ended before its base time, the answer protects every checkpoint younger than the period at the time by the clock, those just as old but for a shared start, and is then the answer of a fresh scan at that time unless the period ends after the history or the clock went back |
| Cnormap.AnswerAgrees | lib/cnormap.c:825-903 | the reason for that, in every branch: what is recorded about the newest checkpoint, and the time since, measure age by the clock |
| CpAge.WithinProtects | lib/cnormap.c:873-884 | the oldest checkpoint within the rest of the period before the newest recorded one protects all that is within the period now |
| CpAge.WithinIsFresh | lib/cnormap.c:873-884 | the oldest checkpoint within the period of the newest recorded one is that of a fresh scan, when the clock has not gone back since |
| CpAge.SinceEndAtLeast | lib/cnormap.c:634-658 | a checkpoint after the history that is within the period is at least the target after its end |
| Cnormap.AnswerProtects | lib/cnormap.c:825-903 | in every branch, the answer is not above the number of a checkpoint that is within the period by what the branch goes by |
| Cnormap.SearchIsWithin | lib/cnormap.c:873-884 | a search for what lies beyond the period answers the oldest checkpoint within the period |
| Cnormap.EqualPeriodExact | lib/cnormap.c:897-899 | the answer for a period that ends at the start of the history is right if and only if no older checkpoint shares its time |
| Cnormap.EqualPeriodMisses | lib/cnormap.c:897-899 | a list, and the history that the first scan records from it, on which that answer is not the oldest checkpoint within the period |
| Cnormap.ForwardNeverTooNew | lib/cnormap.c:634-658 | a forward extension never answers a number above a checkpoint that the period covers |
| Cnormap.ForwardExactIf | lib/cnormap.c:634-658 | it is exact when the newest span has no width or the target is one tick |
| Cnormap.ForwardTooOldOtherwise | lib/cnormap.c:634-658 | otherwise some continuation of the list makes it answer a checkpoint that is too old |
| Cnormap.HistorySurvives | lib/cnormap.c:862-864 | a sound history, its elapsed time included, stays sound when the kernel makes or deletes checkpoints |
| Cnormap.MeetSurvives | lib/cnormap.c:862-864 | two adjacent spans have no checkpoint between them, in whatever way the kernel goes on |
| Cnormap.IntactSurvives | lib/cnormap.c:862-864 | an intact history stays intact as long as no recorded checkpoint is deleted |
| Cnormap.Run | lib/cnormap.c:825-903 | over any run of kernel steps and calls the history stays sound and its elapsed time exact; if nothing is deleted and the clocks go together, every answer of the run protects each checkpoint younger than its period |
| Lscp.BackwardSnapshots | bin/lscp.c:355-407 | prints snapshots only, each once, newest first, none above the requested number, no more than the requested lines; and leaves none out unless the lines are used up by newer ones |
| Lscp.ListWindow | bin/lscp.c:374-392 | one window lists exactly its snapshots below the bound from the end |
| Lscp.RemainderHolds | bin/lscp.c:396-400 | at the switch the final query holds every snapshot that is left |
| Lscp.BelowAt | bin/lscp.c:367-368 | a snapshot is below the bound just when its position is below the count of those |
| Lscp.SearchSnapshot | bin/lscp.c:288-311 | finds the first snapshot from a number on, although it goes on by the number of answers |
| Lscp.ForwardSnapshots | bin/lscp.c:313-353 | the same upwards, from the requested number on, oldest first |
| Lscp.BackwardCheckpoints | bin/lscp.c:177-286 | the same downwards for all checkpoints that are not minor, for snapshots, and on request for all |
| Lscp.WalkPrints | bin/lscp.c:264-283 | the descending walk with the printing callback is that list |
| Layout.ClosedFormsAgree | sbin/mkfs.c:410-429 | the writer's and the reader's closed form agree on all inputs |
| Layout.ClosedFormExact | sbin/mkfs.c:410-429 | the closed form equals placing the records one by one if and only if the last block of records is not exactly full or the record size divides the block size |
| SegmentFormat.FileInfoSizeExact | lib/segment.c:160-198 | the length computed in advance is where the last binfo ends, across the change of record size |
| SegmentFormat.BinfoWithin | lib/segment.c:300-354 | every binfo lies in one block, ends before the next one, and within the computed length |
| SegmentFormat.BinfosDisjoint | lib/segment.c:300-354 | distinct binfos do not overlap |
| Crc32.TableDivides | lib/crc32.c:34-87 | every entry of the table is the division of its index by the reflected polynomial |
| Crc32.Crc32Le | lib/crc32.c:89-98 | the loop computes the bitwise checksum |
| Crc32.StepDivides | lib/crc32.c:93-96 | one table step is the division of one byte |
| Crc32.Chaining | sbin/mkfs.c:1647-1659 | checksumming block after block is checksumming the concatenation |
| Crc32.DifferenceSurvives | lib/crc32.c:89-98 | different checksums stay different under the same further bytes |
| Crc32.BurstDetected | lib/crc32.c:89-98 | buffers of the same length that differ within four consecutive bytes have different checksums |
| SegmentReader.SegmentPlace | lib/nilfs.c:1007-1018 | segments follow each other without overlap, up to the end of the device |
| SegmentReader.GetSegment | lib/nilfs.c:995-1072 | as many bytes as the blocks from the start of the segment to the start of the next one have: read, from its start on; mapped, from the page boundary below its start on |
| SegmentReader.ShownExactly | lib/nilfs.c:1026-1056 | bytes shown from a lower address are those of the segment, whatever the device holds, if and only if the addresses are equal |
| SegmentReader.PsegmentIterator.constructor | lib/segment.c:108-117 | the iterator starts at the first log within the given number of blocks |
| SegmentReader.PsegmentIterator.IsEnd | lib/segment.c:52-123 | not at the end, it stands on a log that passes every check; at the end, nothing is left but the error |
| SegmentReader.PsegmentIterator.Next | lib/segment.c:125-133 | what is left is the current log followed by what is left afterwards, and fewer blocks remain; the next log lies right behind the blocks that the header counts |
| SegmentReader.PsegsStep | lib/segment.c:52-133 | a valid log takes at least one block of the count, so the walk terminates |
| SegmentReader.FileIterator.constructor | lib/segment.c:215-236 | the iterator starts at the first file of the log |
| SegmentReader.FileIterator.IsEnd | lib/segment.c:238-275 | not at the end, it stands on a file that passes every check; at the end, nothing is left but the error |
| SegmentReader.FileIterator.Next | lib/segment.c:277-289 | what is left is the current file followed by what is left afterwards; the blocks of the next file lie right behind those that the finfo counts |
| SegmentReader.FileIterator.AdjustFinfoPosition | lib/segment.c:149-158 | the position moves to where the next record is placed |
| SegmentReader.LengthReadable | lib/segment.c:200-213 | a file that ends within the summary has its finfo there |
| BlockCollect.BinfoReadable | lib/segment.c:314-354 | every binfo of a file that passed the checks lies within the summary |
| BlockCollect.BlockIterator.constructor | lib/segment.c:314-335 | the block iterator starts at the first binfo |
| BlockCollect.BlockIterator.AdjustBinfoPosition | lib/segment.c:300-312 | the position moves to where the next record is placed |
| BlockCollect.BlockIterator.Next | lib/segment.c:342-354 | the pointer, offset and block number stay those of the block with the current index |
| BlockCollect.BlockIterator.Read | lib/gc.c:166-220 | the block read through the pointer is the one with the current index |
| BlockCollect.AccBlocksFile | lib/gc.c:166-220 | appends one descriptor for each block of the file, in order: its inode and checkpoint are those of the finfo, its block numbers count up, and number, offset and level are the bytes of its block information |
| BlockCollect.DescsDescribe | lib/gc.c:166-220 | the descriptors of the first n blocks of a file, byte by byte |
| BlockCollect.AccBlocksPsegment | lib/gc.c:228-251 | on success appends the descriptors of all files of the log, which are undamaged |
| BlockCollect.AccBlocksSegment | lib/gc.c:260-283 | on success appends the descriptors of all logs of the segment, which are undamaged |
| BlockCollect.SegmentBlocksDistinct | lib/gc.c:260-283 | the block numbers collected from any segment rise strictly and lie within it, so there are no more descriptors than blocks |
| Vectors.Vector.Create | lib/vector.c:43-67 | an empty vector, and none for elements of size 0 |
| Vectors.Vector.Enlarge | lib/vector.c:85-106 | the contents stay, and on success the capacity suffices, is no more than was needed or doubled once, and its bytes can be counted |
| Vectors.Vector.Append | lib/vector.c:118-129 | the contents get one more element, or memory ran out and they stay |
| Vectors.Vector.DeleteElements | lib/vector.c:142-159 | the contents lose exactly that range, if it is a range |
| Vectors.Vector.Insert | lib/vector.c:191-218 | the contents get the element at that place |
| Vectors.Vector.Clear | lib/vector.c:161-178 | the contents become empty |
| Vectors.Vector.Sort | lib/gc.c:617-622 | the contents become a sorted permutation |
| Vectors.SortedInOrder | lib/gc.c:77-83 | sorting by a total order gives an ordered permutation |
| Bitmaps.SetBit | sbin/bitops.c:19-29 | sets that bit and no other, and tells its old value |
| Bitmaps.ClearBit | sbin/bitops.c:31-41 | clears that bit and no other, and tells its old value |
| Bitmaps.SetOne | sbin/mkfs.c:1357-1369 | setting a clear bit adds one to the number of set bits |
| Bitmaps.Group.constructor | sbin/mkfs.c:1344-1355 | a new group has all entries free |
| Bitmaps.Group.AllocEntry | sbin/mkfs.c:1357-1369 | fails on an allocated entry; otherwise allocates it, and free entries plus set bits stay the size of the group |
| Bitmaps.Dat.constructor | sbin/mkfs.c:1527-1553 | the DAT starts with number 0 reserved |
| Bitmaps.Dat.AssignVblocknr | sbin/mkfs.c:1555-1576 | fails just when file or group has no entry left; otherwise the new number resolves to the block and earlier ones keep their meaning |
| Bitmaps.DatCapacity | sbin/mkfs.c:386-397 | the last number has an entry if and only if the count does not fill its blocks exactly |
| MkfsLayout.IncrementExact | sbin/mkfs.c:431-441 | the two closed forms give the end of a file's records placed one by one |
| MkfsLayout.SegmentInfo.constructor | sbin/mkfs.c:507-520 | an empty segment with exact counts |
| MkfsLayout.SegmentInfo.AddFile | sbin/mkfs.c:556-578 | fails just on too many files or a bad inode; otherwise all counts stay exact, summary bytes included |
| MkfsLayout.SegmentInfo.FixDiskLayout | sbin/mkfs.c:522-554 | summary, payload of the files in order, and super root without gaps, if they are no more than a segment |
| MkfsWriter.MapSegsumInfo | sbin/mkfs.c:1284-1297 | the address on the disk of the next placed record, and its end |
| MkfsWriter.StoreFinfo | sbin/mkfs.c:1310-1315 | what is stored is what the reader reads, and no other byte changes |
| MkfsWriter.StoreBinfo | sbin/mkfs.c:1317-1340 | the same for block information |
| MkfsWriter.UpdateBlocknr | sbin/mkfs.c:1299-1342 | the file's records are written where the reader looks for them, its block map of at most seven entries holds its numbers, and these resolve through the DAT; fails just when the DAT is full |
| MkfsCommit.PrepareSegment | sbin/mkfs.c:1578-1604 | the header has the fields that the reader checks, and flags, sequence number, times and numbers as given |
| MkfsCommit.UpdateFiles | sbin/mkfs.c:1674-1675 | all records are written, the final offset is the precomputed number of summary bytes, and all numbers resolve |
| MkfsCommit.CrcOfBlocks | sbin/mkfs.c:1647-1659 | the chained checksum is that of the whole log |
| MkfsCommit.FillInChecksums | sbin/mkfs.c:1624-1660 | the checksums of super root and log are those of their ranges in the final contents, that of the summary is taken of what lies from the address of the first block on, and nothing else changes |
| MkfsCommit.SummedIff | sbin/mkfs.c:1631-1637 | the checksum of the summary is right, whatever lies in memory behind the first block, if and only if the summary is no longer than a block |
| MkfsCommit.CommitSegment | sbin/mkfs.c:1662-1688 | header, records and the checksum taken of the summary are on the disk, and the checksum of the log is right; fails just when the DAT is full |
| MkfsInodes.FileTable | sbin/mkfs.c:1586-1589 | the table leads from each inode number to the last file that has it |
| MkfsInodes.InodesFill | sbin/mkfs.c:338-347 | the inodes of an ifile fill its blocks behind the group descriptor and the bitmap exactly |
| MkfsInodes.FindInodes | sbin/mkfs.c:1371-1455 | raw_inode is set for exactly the files that the table leads to and that have a place in the super root, the first checkpoint or the ifile |
| MkfsInodes.PrepareFiles | sbin/mkfs.c:1578-1622 | preparing the files stays within what they have if and only if no inode occurs twice, every reserved one occurs, ifile and cpfile have the blocks for it, and no file has more than six blocks |
| MkfsMain.MakeFilesystem | sbin/mkfs.c:613-638 | from the wanted files to the committed segment: completes if and only if the files are acceptable and mapped, the log is no longer than a segment and the DAT has an entry for every number |
| MkfsMain.Capacity | sbin/mkfs.c:386-397 | when the DAT of that size has an entry for every number |
| MkfsInitial.StartOverlooked | sbin/mkfs.c:529-534 | a layout of 16 blocks, none of mkfs itself, that passes the check although only 12 blocks remain in the first segment |
| MkfsInitial.LongSummary | sbin/mkfs.c:1631-1637 | a layout that passes every check and ends within its segment, with a summary longer than a block |
| MkfsInitial.InitialFilesFit | sbin/mkfs.c:618-629 | for every block size, the files that mkfs adds are accepted and mapped, their DAT has an entry for every number, the summary fits in a block, and disk header and log are no more than the smallest segment |
| MkfsInitial.MakeInitial | sbin/mkfs.c:613-638 | on its own files mkfs never fails, and the log ends within the first segment |
| RoundTrip.LogAccepted | lib/segment.c:52-106 | the reader accepts the log of mkfs if and only if it ends within its segment and the checksum of its summary is right; if only that fails, there is no error |
| RoundTrip.SumRightIff | sbin/mkfs.c:1631-1637 | that checksum is right, whatever lies in memory behind the first block, if and only if the summary fits in a block |
| RoundTrip.OneLog | lib/segment.c:108-133 | when that checksum is right, the log iterator yields that log, and no other, without error |
| RoundTrip.FilesReadBack | lib/segment.c:215-289 | the file iterator yields exactly the files with blocks, in the order in which they were added, with their inodes, counts and block numbers |
| RoundTrip.BlocksReadBack | lib/segment.c:314-354 | the block iterator yields for every block its number, offset and virtual number |
| RoundTrip.SegmentReadBack | lib/gc.c:260-283 | then the blocks collected from the segment that mkfs made are exactly those of the added files, in order, with their numbers |
| RoundTrip.FilesDescribedFrom | lib/gc.c:166-220 | the descriptors of the files of mkfs: block k of a file has offset k, the block number k behind the first, and the next virtual number in order |
| RoundTrip.NothingReadBack | lib/gc.c:260-283 | when that checksum is wrong, the collector takes the segment for empty |
| RoundTrip.MakeThenCollect | lib/gc.c:352-366 | mkfs on any files, then the collector on the first segment: when the log ends within it and it is shown from its start on, there is exactly one descriptor for each block of the files, with inode, offset, block number and virtual number, if the checksum of the summary is right, and none otherwise; it is right if the summary fits in a block |
| RoundTrip.MakeInitialThenCollect | lib/gc.c:352-366 | mkfs on its own files, then the collector: exactly one right descriptor for each block of these files if the segment is read, or mapped with pages no larger than 4096 bytes or a block |
| RoundTrip.FirstSegmentAligned | lib/nilfs.c:1030-1035 | the first segment starts at a page boundary if and only if pages are no larger than 4096 bytes or a block |
| RoundTrip.LaterSegmentsAligned | lib/nilfs.c:1030-1035 | any later segment starts at a page boundary, unless pages are larger than segments |
| RoundTrip.NumbersResolve | sbin/mkfs.c:1555-1576 | every virtual number that is read resolves through the DAT to the block it stands for |
| RoundTrip.NumbersDistinct | sbin/mkfs.c:1555-1576 | no two blocks share a virtual number |
| GcLiveness.VdescIsLive | lib/gc.c:480-540 | the judgement equals its plain meaning, the last hit stays 0 or a real snapshot, and the initial 0 causes no false hit |
| GcLiveness.GetSnapshot | lib/gc.c:415-470 | when the queries succeed the result is all snapshots in order |
| GcLiveness.AddBatch | lib/gc.c:443-456 | a batch is refused just when its numbers do not rise |
| GcLiveness.TakeBatch | lib/gc.c:435-458 | a batch that the kernel lists is never refused, and the numbers read stay those of the first snapshots |
| GcLiveness.SnapshotsIncrease | lib/gc.c:446-455 | the snapshot numbers rise strictly, as the judgement needs |
| GcToss.Conservation | lib/gc.c:790-794 | survivors and freed blocks add up to all descriptors |
| GcToss.DeletableFrom | lib/gc.c:582-602 | every deletable period is that of a dead block that is not metadata |
| GcToss.TossRun | lib/gc.c:573-606 | one outer step notes and deletes exactly the dead descriptors up to the next live one |
| GcToss.TossVdescs | lib/gc.c:553-611 | in place: survivors are exactly the live ones in order, freed numbers exactly the dead ones, periods exactly those of dead blocks with a checkpoint number |
| GcToss.TossBdescs | lib/gc.c:684-700 | in place: exactly the descriptors stay, in order, whose block is where the kernel says it is |
| GcToss.DeadHarmless | lib/gc.c:480-540 | the period of a dead block holds no snapshot and no protected checkpoint, given that its life starts no earlier than its own checkpoint |
| GcToss.RuleNeeded | lib/gc.c:499-511 | without that rule it may hold a snapshot |
| GcToss.UnifiedHarmless | lib/gc.c:617-640 | so no unified period does |
| GcPeriods.UnifiedCovers | lib/gc.c:617-640 | the merge covers exactly the numbers that the list covers |
| GcPeriods.UnifiedGapped | lib/gc.c:617-640 | every period of the result ends strictly before the next one starts |
| GcPeriods.UnifiedNonEmpty | lib/gc.c:617-640 | from non-empty periods come non-empty ones |
| GcPeriods.UnifiedIdempotent | lib/gc.c:617-640 | unifying again changes nothing |
| GcPeriods.CoverDetermines | lib/gc.c:617-640 | only one list of non-empty, separate periods covers a given set of numbers |
| GcPeriods.UnifiedFewest | lib/gc.c:617-640 | no list covers the same numbers with fewer periods, if none of those merged was empty |
| GcPeriods.AbsorbUpTo | lib/gc.c:627-634 | the inner loop merges into period i what touches it |
| GcPeriods.UnifyPeriod | lib/gc.c:617-640 | in place: the merge of a sorted permutation, covering the same numbers with strict gaps, and with the fewest periods if none was empty |
| GcSelect.CounterOrder | include/util.h:57-59 | the signed comparison orders sequence numbers that wrapped around, unless they are far apart |
| GcSelect.DeselectSegment | lib/gc.c:291-303 | the segment goes to the end of the selected ones, the others keep their order |
| GcSelect.AccBlocks | lib/gc.c:314-370 | the array becomes the accepted segments in order and the rejected ones in reverse order of rejection, each examined once; every accepted one is dirty, inactive, without error and, unless it is scrapped, behind the protected sequence number, every other one is not; the descriptors are those of the accepted ones |
| GcSelect.ArrangedPermutes | lib/gc.c:314-370 | no segment is lost or invented, however far the loop came |
| GcSelect.CollectionFits | lib/gc.c:809-811 | there are never more descriptors than the accepted segments have blocks |
| GcReclaim.GetVdesc | lib/gc.c:377-408 | the descriptors are a permutation in the order of their numbers, each with the life that the kernel answers for its number |
| GcReclaim.GetBdesc | lib/gc.c:647-666 | the same for blocks of the DAT, in the order of inode, level and offset |
| GcReclaim.TossVirtual | lib/gc.c:777-797 | survivors in the order of their blocks, freed numbers and unified periods of what the kernel answered |
| GcReclaim.Reclaimer.Judge | lib/gc.c:777-819 | the block statistics add up, and what is left is judged |
| GcReclaim.Reclaimer.Postpone | lib/gc.c:831-880 | segments with too little to gain are deferred, all of them, unless the kernel cannot; then the option is dropped and they are cleaned |
| GcReclaim.Reclaimer.Xreclaim | lib/gc.c:711-918 | what is returned and changed for every way a run ends: with no segment to take, in a dry run, when too little would be gained; cleaned, deferred and protected segments add up on every outcome after counting, blocks add up after tossing. A request names exactly the segments that may be reclaimed; if lives follow the rule of the DAT it deletes no snapshot and nothing from the protected number on, if one is given, and frees no block whose life holds one; every block that is needed or current is moved, every other one with a life freed, and blocks of the DAT are moved if and only if they are current |
| GcReclaim.ReclaimableExact | lib/gc.c:809-820 | the number of reclaimable blocks never underflows and is exact while it fits in 32 bits |
| GcReclaim.TossCounts | lib/gc.c:790-794 | kept and freed descriptors add up to all |
| GcReclaim.RequestSafe | lib/gc.c:882-892 | no period of a faithful request holds a snapshot or a checkpoint from the protected number on |
| GcReclaim.FreedSafe | lib/gc.c:573-606 | every freed number is that of an overwritten metadata block, or of a dead block whose life holds no snapshot and nothing protected |
| GcReclaim.LiveByLife | lib/gc.c:480-540 | a block with a life is dead if and only if its life has ended and holds nothing to be kept; metadata is dead just when it is overwritten |
| GcReclaim.RequestComplete | lib/gc.c:882-892 | every collected block is either moved or freed |
| GcReclaim.RequestMeans | lib/gc.c:882-892 | a faithful request in terms of the parameters, the list of checkpoints and the lives alone |
| GcProtect.PeriodHonoured | sbin/cleanerd.c:1534-1561 | with the mapper's answer as protected number, a safe request deletes no checkpoint within the protection period, and the life of no freed block, but for metadata, holds one |
| GcProtect.CleanSegments | sbin/cleanerd.c:1534-1574 | one call of the daemon, from the protection period to the request: the segments that may be taken with the given sequence number and no others are reclaimed, for the number that the mapper answers, unless less than the given part of them would be gained and they can be deferred; no requested period and no life of a freed block, but for overwritten metadata, holds a snapshot, a checkpoint that the mapper counts to the period, or, by the clock and for an intact history, one younger than the period |
| CleanerState.AlwaysKnown | sbin/cleanerd.c:1786-1846 | in every run the state is suspended, idle, automatic or manual, and no reload changes the size of segments |
| CleanerState.SuspendedPass | sbin/cleanerd.c:1495-1501 | a suspended daemon selects nothing in a pass and stays suspended if and only if no message wakes it |
| CleanerState.SuspendedStays | sbin/cleanerd.c:1786-1846 | over any number of passes in which no resume, stop or valid run command arrives, it selects no segments and nothing fails |
| CleanerState.SuspendResume | sbin/cleanerd.c:919-933 | a resumed daemon is idle, whatever it did before |
| CleanerState.RunStarts | sbin/cleanerd.c:1109-1200 | a run command starts a manual run if and only if all its arguments are valid, and otherwise leaves mode, counters and flags alone |
| CleanerState.HalvesTheOther | sbin/cleanerd.c:502-542 | the halving for a retry never changes the number of segments that is in use, and halves the other one if it is above 1 |
| CleanerState.ReceiveKeeps | sbin/cleanerd.c:1202-1344 | a message that starts no manual run leaves the counters of manual runs and the flags of fallback and retry alone, and the daemon as it is, suspended, or, if it was manual or suspended, idle |
| CleanerState.IdlePass | sbin/cleanerd.c:1402-1441 | with the clean check on, an idle pass selects segments if and only if there are fewer clean ones than the minimum and the reserve |
| CleanerState.AutomaticPass | sbin/cleanerd.c:1402-1441 | with the clean check on, an automatic pass selects nothing if and only if there are more clean segments than the maximum and the reserve, and then it pauses |
| CleanerState.RestStays | sbin/cleanerd.c:1786-1846 | a daemon at rest selects nothing, in any run, as long as clean segments do not run short and no manual run is started |
| CleanerState.PausesUntilShort | sbin/cleanerd.c:1786-1846 | once there are more clean segments than wanted, an automatic daemon selects nothing, in any run, until they run short or a manual run is started |
| CleanerState.ManualPass | sbin/cleanerd.c:1472-1532 | each pass of a manual run without a lack of memory ends it or makes passes, segments and retries lexicographically smaller, whatever messages arrive but a valid run command |
| CleanerState.ManualRunEnds | sbin/cleanerd.c:1786-1846 | so a manual run without lack of memory, pending fallback and further valid run command comes to an end |
| CleanerState.ManualProgress | sbin/cleanerd.c:1786-1846 | as long as it goes on, what is left to do is strictly less than at its start |
| CleanerState.StaleFallback | sbin/cleanerd.c:969-980 | a pending fallback and segments with nothing to reclaim keep it going for ever |
| CleanerState.ManualRunEndsIff | sbin/cleanerd.c:1786-1846 | it ends for every behaviour of the surroundings, other messages and reloads included, if and only if no fallback is pending or nothing is left to do |
| CleanerState.WaitsLongEnough | sbin/cleanerd.c:979-1009 | when nothing was cleaned the daemon waits at least for the check interval, and for the protection period when nothing is reclaimable |
| CleanerPass.PassAchieves | sbin/cleanerd.c:1786-1846 | a pass without a message: which speed is chosen, whether segments are selected, how the counters of a manual run go down and when it ends, which flags are set, when the next pass is and when the one after it is aimed at, and that nothing else changes |
| CleanerPass.PassFails | sbin/cleanerd.c:1786-1846 | a pass fails when the choice of segments or the reclaiming does, and otherwise only when it selects and a clock cannot be read |
| CleanerPass.StepAchieves | sbin/cleanerd.c:1786-1846 | a whole pass: reload, pass and message each do what they are for |
| CleanerPass.MessageAchieves | sbin/cleanerd.c:1202-1344 | what every message sets, and whether it is acknowledged: for a run command what is asked for, otherwise what is in use, and when it is refused what comes before the refused argument |
| Cleanerd.Cleaner.constructor | sbin/cleanerd.c:1765-1784 | the daemon starts idle or automatic, without fallback |
| Cleanerd.Cleaner.HandleCleanCheck | sbin/cleanerd.c:1402-1441 | changes the fields as the state machine says; idle it sleeps just when clean segments do not run short, automatic just when there are more than wanted |
| Cleanerd.Cleaner.HandleManualMode | sbin/cleanerd.c:1472-1493 | the same for the counters of a manual run |
| Cleanerd.Cleaner.Check | sbin/cleanerd.c:1495-1523 | the same for the whole check |
| Cleanerd.Cleaner.Reconfig | sbin/cleanerd.c:290-308 | a configuration that can be read replaces the old one and sets the three fields of the speed; otherwise nothing changes |
| Cleanerd.Cleaner.NoteProgress | sbin/cleanerd.c:1525-1532 | the same for finished segments |
| Cleanerd.Cleaner.ReduceNcleansegsForRetry | sbin/cleanerd.c:532-542 | the same for the halving; the number in use stays |
| Cleanerd.Cleaner.Clean | sbin/cleanerd.c:1534-1623 | the same for the outcomes of a reclaim |
| Cleanerd.Cleaner.RecalcInterval | sbin/cleanerd.c:969-1038 | the same for the time to wait |
| Cleanerd.Cleaner.Command | sbin/cleanerd.c:1109-1200 | the same for a run command, fields set before a refusal included |
| Cleanerd.Cleaner.HandleMessage | sbin/cleanerd.c:1202-1344 | every command does what it is for, a reload of the configuration included |
| Cleanerd.Cleaner.LoopPass | sbin/cleanerd.c:1786-1846 | one pass of the loop, signals included, is one pass of the state machine, with all that it achieves field by field |
| Cleanerd.Cleaner.CleanLoop | sbin/cleanerd.c:1786-1846 | the loop follows the state machine until a shutdown or a failure; suspended and unwoken, or at rest with enough clean segments, it selects nothing and does not fail; a manual run has strictly less to do after it, or is over |

## Left out

- Input and output: ioctls, mapping of segments, semaphores, signals, message queues, logging and clocks are parameters or nondeterministic failures.
- Integer widths: counts on the disk, offsets and times are unbounded integers; 32-bit sums of damaged counts and 64-bit sums of times do not wrap. Kept are the doubling of the search window, the comparison of sequence numbers, the 32-bit number of reclaimable blocks, the checksum, the field widths when mkfs stores numbers, and the size limit of a vector.
- Allocation failures inside scan callbacks; in vectors, tossing and collecting they are modelled.
- The function and context pointers of the enumerations: a callback is a function from a checkpoint and a context to a verdict and a context.
- The history of the reverse mapper is a sequence field that is reassigned, not a `nilfs_vector`.
- Vectors.Vector.DeleteElements: does not model the wrap-around of `index + nelems` for counts near the largest size.
- Vectors.Vector.Sort: qsort is not part of this repository; any sorted permutation satisfies the contract, and comparators that never answer 0 are modelled by the order they mean.
- Cnormap.Mapper.TrackBack: claims no exact answer for the forward extension or for the equal period, because the code does not give one. When the ends of recorded spans have been deleted, the answer separates the checkpoints that are left by the recorded time, which still counts the deleted ones.
- GcReclaim.Answered: the kernel answers at least one entry of every batch; with none the source asks for ever (lib/gc.c:384, 657).
- GcSelect.Examine: a segment number that the kernel does not know is a failure; the source tests only for negative returns and goes on with the information of the segment before (lib/gc.c:327-331). A failing unmap after a rejection is not distinguished from a failure before it.
- BlockCollect.BlockIterator.Read: the offset of node blocks and the fields that the kernel fills in later are 0.
- MkfsCommit.CommitSegment: contents of payload blocks (inodes, directories, checkpoint and usage files, the rest of the super root) and the superblock are not modelled; the entries of the DAT are values, not bytes, and its group descriptors one number.
- Bitmaps.Group: only the first group, as mkfs uses it.
- Assessment without cleaning, and protection tests of single segments.
- The configuration file: what is read from it, or that it cannot be read, is part of the input.
- Cleanerd.Cleaner.HandleMessage: status, tune and wait commands change no field of the model; replies are not sent.
- Selection policies, the workload logger, resizing, mounting, option parsing and printing: little to prove, or floating point and system calls.
