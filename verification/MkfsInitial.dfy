/** The files that mkfs itself makes, and others for which its functions would not do. */
module MkfsInitial {
  import opened Arithmetic
  import opened Layout
  import opened Bytes
  import opened SegmentFormat
  import opened MkfsLayout
  import opened MkfsWriter
  import opened MkfsCommit
  import opened MkfsInodes
  import opened MkfsMain
  import opened Bitmaps

  const CHECKPOINT_SIZE: nat := 192
  const SEGMENT_USAGE_SIZE: nat := 16
  const DISKHDR_SIZE: nat := 4096

  /** Files with the inodes that main passes to add_file before the DAT, and these numbers of blocks. */
  function Sized(n: seq<nat>): (files: seq<FileInfo>)
    requires |n| == 9
    ensures |files| == 9 && forall i :: 0 <= i < 9 ==> files[i].nblocks == n[i] && files[i].ino < MAX_INITIAL_INO
    ensures forall i :: 0 <= i < 9 ==> files[i].ino != DAT_INO
  {
    [FileInfo(ROOT_INO, 0, n[0]), FileInfo(ATIME_INO, 0, n[1]), FileInfo(1, 0, n[2]), FileInfo(8, 0, n[3]),
     FileInfo(9, 0, n[4]), FileInfo(10, 0, n[5]), FileInfo(IFILE_INO, 0, n[6]), FileInfo(CPFILE_INO, 0, n[7]),
     FileInfo(SUFILE_INO, 0, n[8])]
  }

  /** The number of blocks for the entries; the headers of cpfile and sufile take up one and two of them. */
  function EntryBlocks(bs: nat, size: nat, entries: nat): nat
    requires 0 < size <= 1024 <= bs
  {
    DivPositive(bs, size);
    (entries + bs / size - 1) / (bs / size)
  }

  /** What main passes, with count_ifile_blocks, count_cpfile_blocks and count_sufile_blocks. */
  function InitialFiles(bs: nat): seq<FileInfo>
    requires bs >= 1024
  {
    Sized([1, 0, 0, 0, 0, 0, GROUP_BLOCKS + EntryBlocks(bs, INODE_SIZE, MAX_INITIAL_INO),
           EntryBlocks(bs, CHECKPOINT_SIZE, 1), EntryBlocks(bs, SEGMENT_USAGE_SIZE, 4)])
  }

  /** The first segment starts after the header of the disk. */
  function FirstDataBlock(bs: nat): nat
    requires bs > 0
  {
    (DISKHDR_SIZE + bs - 1) / bs
  }

  // ----- the layout of such files -----

  /** They are mapped when ifile and cpfile have the blocks for it, and none has too many. */
  lemma {:induction false} SizedMappable(bs: nat, n: seq<nat>)
    requires bs >= 1024 && |n| == 9 && InodesOf(bs, n[6]) >= MAX_INITIAL_INO && n[7] > 0
    requires forall i :: 0 <= i < 9 ==> n[i] <= MAX_BMAP_ROOT_PTRS
    requires var files := Sized(n); CountDatBlocks(bs, Virtuals(files, 9)) <= MAX_BMAP_ROOT_PTRS
    ensures Mappable(bs, WithDat(bs, Sized(n)))
  {
    hide InodesOf, Virtuals, CountDatBlocks;
    var all := WithDat(bs, Sized(n));
    forall ino: nat | 1 <= ino < MAX_INITIAL_INO ensures Present(all, ino) {
      var i := if ino == 1 then 2 else if ino == 2 then 0 else if ino == 3 then 9 else if ino == 6 then 6
               else if ino == 7 then 1 else if ino <= 5 then ino + 3 else ino - 5;
      assert all[i].ino == ino;
    }
    assert all[6].ino == IFILE_INO && all[7].ino == CPFILE_INO;
  }

  lemma {:induction false} SizedSums(n: seq<nat>)
    requires |n| == 9
    ensures var files := Sized(n);
            Virtuals(files, 9) == Payload(files, 9) == n[0] + n[1] + n[2] + n[3] + n[4] + n[5] + n[6] + n[7] + n[8]
  {
    var files := Sized(n);
    hide Sized;
    assert Virtuals(files, 1) == Payload(files, 1) == n[0];
    assert Virtuals(files, 2) == Payload(files, 2) == n[0] + n[1];
    assert Virtuals(files, 4) == Payload(files, 4) == n[0] + n[1] + n[2] + n[3];
    assert Virtuals(files, 6) == Payload(files, 6) == n[0] + n[1] + n[2] + n[3] + n[4] + n[5];
    assert Virtuals(files, 8) == Payload(files, 8) == n[0] + n[1] + n[2] + n[3] + n[4] + n[5] + n[6] + n[7];
  }

  /** The bytes of the records of the first k files, one behind the other. */
  function RecordBytes(files: seq<FileInfo>, k: nat): nat
    requires k <= |files|
  {
    if k == 0 then 0
    else
      var f := files[k - 1];
      RecordBytes(files, k - 1) + (if f.nblocks == 0 then 0 else FINFO_SIZE + (if IsDat(f) then 8 else 16) * f.nblocks)
  }

  /** Records that fit in the first block lie one behind the other. */
  lemma {:induction false} InFirstBlock(bs: nat, files: seq<FileInfo>, k: nat)
    requires k <= |files| && SEGSUM_SIZE + RecordBytes(files, k) <= bs
    ensures SummaryEnd(bs, files, k) == SEGSUM_SIZE + RecordBytes(files, k)
  {
    hide Advance, BinfoEnd, Place;
    if k > 0 {
      InFirstBlock(bs, files, k - 1);
      var f, end := files[k - 1], SummaryEnd(bs, files, k - 1);
      if f.nblocks > 0 {
        var size := if IsDat(f) then 8 else 16;
        PlaceAt(bs, end, 0, end, FINFO_SIZE);
        BinfoEndData(bs, end, IsDat(f), FinfoOf(f), f.nblocks);
        AdvanceFirst(bs, end + FINFO_SIZE, 0, end + FINFO_SIZE, size, f.nblocks);
      }
    }
  }

  lemma {:induction false} OneBlock(n: nat, per: nat)
    requires 0 < n <= per
    ensures (n + per - 1) / per == 1
  {
    DivModUnique(n + per - 1, per, 1, n - 1);
  }

  lemma {:induction false} NotMultiple(n: nat, per: nat)
    requires 0 < n < per
    ensures n % per != 0
  {
    DivModUnique(n, per, 0, n);
  }

  lemma {:induction false} SizeFrom(bs: nat)
    requires BlockSize(bs)
    ensures bs == 1024 || bs == 2048 || bs >= 4096
  {
    if bs > 1024 {
      SizeFrom(bs / 2);
    }
  }

  // ----- the files of mkfs -----

  /** The numbers of blocks of these files, and of the DAT that follows them. */
  lemma {:induction false} InitialCounts(bs: nat)
    requires bs == 1024 || bs >= 2048
    ensures InitialFiles(bs) == Sized([1, 0, 0, 0, 0, 0, if bs == 1024 then 4 else 3, 1, 1])
    ensures Virtuals(InitialFiles(bs), 9) == Payload(InitialFiles(bs), 9) == (if bs == 1024 then 7 else 6)
    ensures CountDatBlocks(bs, Virtuals(InitialFiles(bs), 9)) == 3
  {
    hide Virtuals, Payload, Sized;
    OneBlock(1, bs / CHECKPOINT_SIZE);
    OneBlock(4, bs / SEGMENT_USAGE_SIZE);
    if bs >= 2048 {
      OneBlock(MAX_INITIAL_INO, bs / INODE_SIZE);
    }
    SizedSums([1, 0, 0, 0, 0, 0, if bs == 1024 then 4 else 3, 1, 1]);
    OneBlock(Virtuals(InitialFiles(bs), 9), bs / DAT_ENTRY_SIZE);
  }

  /**
   The bytes of the records of such files: 24 for each file with blocks, 16 for each block, 8 for those
   of the DAT.
   */
  lemma {:induction false} SizedRecords(bs: nat, n: seq<nat>)
    requires bs >= 1024 && |n| == 9 && n[0] > 0 && n[1] == 0 && n[3] == 0 && n[4] == 0 && n[5] == 0
    requires n[6] > 0 && n[7] > 0 && n[8] > 0
    ensures var all := WithDat(bs, Sized(n));
            |all| == 10 &&
            RecordBytes(all, 10) == 24 * 5 + 16 * (n[0] + n[2] + n[6] + n[7] + n[8]) + (if n[2] == 0 then 0 else 24)
                                    + 8 * all[9].nblocks
  {
    hide CountDatBlocks, Virtuals;
    var all := WithDat(bs, Sized(n));
    assert forall i :: 0 <= i < 9 ==> all[i].nblocks == n[i] && !IsDat(all[i]);
    assert IsDat(all[9]) && all[9].nblocks >= 2;
    hide Sized, WithDat;
    assert RecordBytes(all, 1) == 24 + 16 * n[0];
    assert RecordBytes(all, 2) == 24 + 16 * n[0];
    assert RecordBytes(all, 4) == RecordBytes(all, 2) + (if n[2] == 0 then 0 else 24 + 16 * n[2]);
    assert RecordBytes(all, 6) == RecordBytes(all, 4);
    assert RecordBytes(all, 8) == RecordBytes(all, 6) + 48 + 16 * (n[6] + n[7]);
  }

  /**
   The files of mkfs itself pass every check and have all that the code relies on; their summary fits
   in a block, and their log ends within the first segment, however small the segments are.
   */
  lemma {:induction false} InitialFilesFit(bs: nat)
    requires BlockSize(bs)
    ensures bs >= 1024
    ensures var wanted, all := InitialFiles(bs), WithDat(bs, InitialFiles(bs));
            && Acceptable(wanted) && (forall i :: 0 <= i < |wanted| ==> wanted[i].ino != DAT_INO)
            && Mappable(bs, all) && DatFits(bs, Virtuals(wanted, |wanted|))
            && SummaryEnd(bs, all, |all|) <= bs
            && FirstDataBlock(bs) + LogBlocks(bs, all) <= SEG_MIN_BLOCKS
  {
    hide SummaryEnd, Virtuals, Payload, CountDatBlocks, InitialFiles, Sized, Mappable, RecordBytes;
    BlockSizeFacts(bs);
    SizeFrom(bs);
    InitialCounts(bs);
    var n := [1, 0, 0, 0, 0, 0, if bs == 1024 then 4 else 3, 1, 1];
    InitialRoom(bs);
    SizedMappable(bs, n);
    SizedRecords(bs, n);
    var wanted, all := Sized(n), WithDat(bs, Sized(n));
    InFirstBlock(bs, all, 10);
    NotMultiple(Virtuals(wanted, 9), bs / DAT_ENTRY_SIZE);
    SameLayout(bs, all, wanted, 9);
    PayloadNext(all, 9);
    OneBlock(SummaryEnd(bs, all, 10), bs);
    if bs > 4096 {
      OneBlock(DISKHDR_SIZE, bs);
    }
  }

  lemma {:induction false} InitialRoom(bs: nat)
    requires bs == 1024 || bs >= 2048
    ensures InodesOf(bs, if bs == 1024 then 4 else 3) >= MAX_INITIAL_INO
  {
  }

  /** mkfs on its own files never fails. */
  method MakeInitial(disk: array<Byte>, bs: nat, perSegment: nat, seed: bv32, seqnum: nat, ctime: nat, next: nat,
                     behind: nat -> Byte)
    returns (si: SegmentInfo, dat: Dat?, bmaps: seq<seq<nat>>)
    requires BlockSize(bs) && 1024 <= bs < LIMIT32 && SEG_MIN_BLOCKS <= perSegment < LIMIT32
    requires BlocksEnd(bs, 0, 2 * perSegment) <= disk.Length
    requires seqnum < LIMIT64 && ctime < LIMIT64 && next < LIMIT64
    modifies disk
    ensures si.LaidOut() && si.bs == bs && si.startBlocknr == FirstDataBlock(bs)
    ensures si.nblocks >= PSEG_MIN_BLOCKS && si.startBlocknr + si.nblocks <= perSegment && si.sumbytes <= bs
    ensures SameFiles(si.files, WithDat(bs, InitialFiles(bs))) && Committed(disk[..], si, seed, behind)
    ensures dat != null && Numbered(dat.entries[..], si.files, FIRST_CNO, |si.files|)
    ensures |bmaps| == |si.files| &&
            forall i :: 0 <= i < |bmaps| ==> bmaps[i] == Bmap(si.files[i], First(si.files, i), si.files[i].nblocks)
  {
    hide SegmentInfo.LaidOut, Committed, Numbered, BlockSize, SummaryEnd, InitialFiles, Acceptable, DatFits, LogBlocks,
      WithDat, SameFiles, Virtuals, BlocksEnd, FirstDataBlock, Bmap, First, Mappable;
    InitialFilesFit(bs);
    ghost var all := WithDat(bs, InitialFiles(bs));
    LogHasBlocks(bs, all);
    var made;
    made, si, dat, bmaps :=
      MakeFilesystem(disk, bs, FirstDataBlock(bs), perSegment, InitialFiles(bs), seed, seqnum, ctime, next, behind);
    SameSummary(si, all);
  }

  lemma {:induction false} SameSummary(si: SegmentInfo, all: seq<FileInfo>)
    requires si.LaidOut() && SameFiles(si.files, all)
    ensures si.bs > 0 && si.sumbytes == SummaryEnd(si.bs, all, |all|)
  {
    hide SummaryEnd, BlockSize;
    SameLayout(si.bs, si.files, all, |all|);
  }

  /** A log has at least its summary and its super root. */
  lemma {:induction false} LogHasBlocks(bs: nat, files: seq<FileInfo>)
    requires bs > 0
    ensures LogBlocks(bs, files) >= PSEG_MIN_BLOCKS
  {
    hide SummaryEnd, Payload;
    DivPositive(SummaryEnd(bs, files, |files|) + bs - 1, bs);
  }

  // ----- other files -----

  /**
   The layout is accepted when the log is not longer than a segment; that the first segment starts
   four blocks later is not considered.  These 16 blocks pass although only 12 remain.
   */
  lemma {:induction false} StartOverlooked()
    ensures var wanted := Sized([1, 0, 4, 0, 0, 0, 4, 1, 1]);
            && Acceptable(wanted) && Mappable(1024, WithDat(1024, wanted)) && DatFits(1024, Virtuals(wanted, 9))
            && FirstDataBlock(1024) == 4 && LogBlocks(1024, WithDat(1024, wanted)) == SEG_MIN_BLOCKS
  {
    hide SummaryEnd, Virtuals, Payload, Sized, Mappable, RecordBytes;
    var n := [1, 0, 4, 0, 0, 0, 4, 1, 1];
    var wanted, all := Sized(n), WithDat(1024, Sized(n));
    SizedSums(n);
    SizedMappable(1024, n);
    SizedRecords(1024, n);
    InFirstBlock(1024, all, 10);
    SameLayout(1024, all, wanted, 9);
    PayloadNext(all, 9);
  }

  /** A log that passes every check and ends within its segment, but whose summary is longer than a block. */
  lemma {:induction false} LongSummary()
    ensures var wanted := Sized([6, 6, 6, 6, 6, 6, 6, 6, 6]);
            && Acceptable(wanted) && Mappable(1024, WithDat(1024, wanted)) && DatFits(1024, Virtuals(wanted, 9))
            && FirstDataBlock(1024) + LogBlocks(1024, WithDat(1024, wanted)) <= 128
            && SummaryEnd(1024, WithDat(1024, wanted), 10) > 1024
  {
    hide SummaryEnd, Virtuals, Payload, Sized, Mappable, RecordBytes;
    var n := [6, 6, 6, 6, 6, 6, 6, 6, 6];
    var wanted, all := Sized(n), WithDat(1024, Sized(n));
    SizedSums(n);
    SizedMappable(1024, n);
    FullRecords(all);
    InFirstBlock(1024, all, 8);
    NextRecord(1024, all, 8);
    LayoutMonotone(1024, all, 9, 10);
    SummaryBound(1024, all, 10);
    SameLayout(1024, all, wanted, 9);
    PayloadNext(all, 9);
  }

  lemma {:induction false} FullRecords(files: seq<FileInfo>)
    requires |files| >= 8 && forall i :: 0 <= i < 8 ==> files[i].nblocks == 6 && !IsDat(files[i])
    ensures RecordBytes(files, 8) == 960
  {
    assert RecordBytes(files, 1) == 120;
    assert RecordBytes(files, 2) == 240;
    assert RecordBytes(files, 4) == 480;
    assert RecordBytes(files, 6) == 720;
  }

  lemma {:induction false} NextRecord(bs: nat, files: seq<FileInfo>, k: nat)
    requires bs > 0 && k < |files| && files[k].nblocks > 0
    ensures SummaryEnd(bs, files, k + 1) > SummaryEnd(bs, files, k)
  {
  }
}
