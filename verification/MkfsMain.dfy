/** Making a filesystem: from the wanted files to a committed initial segment. */
module MkfsMain {
  import opened Arithmetic
  import opened Layout
  import opened Bytes
  import opened SegmentFormat
  import opened MkfsLayout
  import opened MkfsWriter
  import opened MkfsCommit
  import opened Bitmaps
  import opened MkfsInodes

  /** The wanted files, and after them the DAT with room for their blocks. */
  function WithDat(bs: nat, wanted: seq<FileInfo>): seq<FileInfo>
    requires bs >= 1024
  {
    wanted + [FileInfo(DAT_INO, 0, CountDatBlocks(bs, Virtuals(wanted, |wanted|)))]
  }

  /** The same inodes with the same numbers of blocks. */
  ghost predicate SameFiles(a: seq<FileInfo>, b: seq<FileInfo>) {
    |a| == |b| && forall i :: 0 <= i < |a| ==> a[i].ino == b[i].ino && a[i].nblocks == b[i].nblocks
  }

  ghost predicate Acceptable(wanted: seq<FileInfo>) {
    |wanted| < MAX_FILES && forall i :: 0 <= i < |wanted| ==> wanted[i].ino < MAX_INITIAL_INO
  }

  /** The number of blocks of the log. */
  function LogBlocks(bs: nat, files: seq<FileInfo>): nat
    requires bs > 0
  {
    Payload(files, |files|) + (SummaryEnd(bs, files, |files|) + bs - 1) / bs + 1
  }

  /** Number 0 is reserved, so the last block of the DAT must have an entry to spare. */
  ghost predicate DatFits(bs: nat, numbers: nat)
    requires bs >= 1024
  {
    && numbers < 8 * bs && CountDatBlocks(bs, numbers) <= MAX_BMAP_ROOT_PTRS
    && (numbers == 0 || numbers % (bs / DAT_ENTRY_SIZE) != 0)
  }

  /** The calls of add_file. */
  method AddFiles(si: SegmentInfo, wanted: seq<FileInfo>) returns (ok: bool)
    requires si.Counted() && si.files == [] && si.nblocks == 0
    requires forall i :: 0 <= i < |wanted| ==> wanted[i].ino != DAT_INO
    modifies si
    ensures ok <==> |wanted| <= MAX_FILES && forall i :: 0 <= i < |wanted| ==> wanted[i].ino < MAX_INITIAL_INO
    ensures ok ==> si.Counted() && si.nblocks == Payload(si.files, |si.files|) && SameFiles(si.files, wanted)
  {
    hide SegmentInfo.Counted, Payload;
    assert Payload(si.files, 0) == 0 by { PayloadStart(si.files); }
    for i := 0 to |wanted|
      invariant si.Counted() && si.nblocks == Payload(si.files, |si.files|)
      invariant i <= MAX_FILES && SameFiles(si.files, wanted[..i])
      invariant forall k :: 0 <= k < i ==> wanted[k].ino < MAX_INITIAL_INO
    {
      ok := si.AddFile(wanted[i].ino, wanted[i].nblocks, false);
      if !ok {
        return;
      }
    }
    return true;
  }

  /**
   mkfs, from the layout to the committed segment.  It succeeds just when the files are acceptable, the
   log is not longer than a segment, every file and block has its place in an inode, and the DAT has an
   entry for every number; otherwise it ends with a message or by using memory that is not its own.
   */
  method MakeFilesystem(disk: array<Byte>, bs: nat, firstBlock: nat, perSegment: nat, wanted: seq<FileInfo>,
                        seed: bv32, seqnum: nat, ctime: nat, next: nat, behind: nat -> Byte)
    returns (made: bool, si: SegmentInfo, dat: Dat?, bmaps: seq<seq<nat>>)
    requires BlockSize(bs) && 1024 <= bs < LIMIT32 && perSegment < LIMIT32
    requires firstBlock + PSEG_MIN_BLOCKS <= perSegment && BlocksEnd(bs, 0, 2 * perSegment) <= disk.Length
    requires seqnum < LIMIT64 && ctime < LIMIT64 && next < LIMIT64
    requires forall i :: 0 <= i < |wanted| ==> wanted[i].ino != DAT_INO
    modifies disk
    ensures made <==> && Acceptable(wanted) && Mappable(bs, WithDat(bs, wanted))
                      && DatFits(bs, Virtuals(wanted, |wanted|)) && LogBlocks(bs, WithDat(bs, wanted)) <= perSegment
    ensures made ==> si.LaidOut() && si.bs == bs && si.startBlocknr == firstBlock && si.nblocks == LogBlocks(bs,
        WithDat(bs, wanted))
    ensures made ==> SameFiles(si.files, WithDat(bs, wanted)) && Committed(disk[..], si, seed, behind)
    ensures made ==> HeaderTells(disk[..], si.Base(), seqnum, ctime, next, 1)
    ensures made ==> DataSummed(disk[..], si.Base(), BlocksEnd(bs, si.Base(), si.nblocks), seed)
    ensures made ==> dat != null && Numbered(dat.entries[..], si.files, FIRST_CNO, |si.files|)
    ensures made ==> |bmaps| == |si.files| &&
                     forall i :: 0 <= i < |bmaps| ==>
                       bmaps[i] == Bmap(si.files[i], First(si.files, i), si.files[i].nblocks)
  {
    hide SegmentInfo.Counted, SegmentInfo.LaidOut, Committed, Numbered, BlockSize, SummaryEnd, Payload, Virtuals,
      NonEmpty, BlocksEnd, Bmap, First,
      SegmentInfo.Base, HeaderWritten, HeaderTells, DataSummed, SameOutside, CountDatBlocks, Dat.Valid;
    si := new SegmentInfo(bs, firstBlock);
    dat, bmaps := null, [];
    made := AddFiles(si, wanted);
    if !made {
      return;
    }
    AddedCounts(si, wanted);
    if si.nvblocknrs > 8 * bs || CountDatBlocks(bs, si.nvblocknrs) > MAX_BMAP_ROOT_PTRS {
      made := false;
      return;
    }
    var n := CountDatBlocks(bs, si.nvblocknrs);
    made := si.AddFile(DAT_INO, n, true);
    if !made {
      return;
    }
    ghost var all := WithDat(bs, wanted);
    assert SameFiles(si.files, all);
    SameCounts(si, all);
    made := si.FixDiskLayout(perSegment);
    if !made {
      return;
    }
    made := PrepareFiles(bs, si.files);
    SameMappable(bs, si.files, all);
    if !made {
      return;
    }
    AfterLayout(si, perSegment, disk.Length, wanted);
    dat := new Dat(bs, n, FIRST_CNO);
    PrepareSegment(disk, si, seqnum, ctime, next, FIRST_CNO);
    ghost var prepared := disk[..];
    bmaps, made := CommitSegment(disk, dat, si, seed, behind);
    if made {
      TellsKept(prepared, disk[..], si.Base(), seqnum, ctime, next, FIRST_CNO);
    }
    Capacity(bs, si.nvblocknrs);
  }

  lemma {:induction false} AddedCounts(si: SegmentInfo, wanted: seq<FileInfo>)
    requires si.Counted() && SameFiles(si.files, wanted)
    ensures si.nvblocknrs == Virtuals(wanted, |wanted|)
  {
    hide SummaryEnd, BlockSize;
    SameLayout(si.bs, si.files, wanted, |wanted|);
  }

  lemma {:induction false} SameCounts(si: SegmentInfo, all: seq<FileInfo>)
    requires si.Counted() && SameFiles(si.files, all)
    ensures si.nfinfo <= |all| && si.nblkSum == (SummaryEnd(si.bs, all, |all|) + si.bs - 1) / si.bs
    ensures Payload(si.files, |all|) == Payload(all, |all|) && si.nvblocknrs == Virtuals(all, |all|)
  {
    hide SummaryEnd, BlockSize;
    SameLayout(si.bs, si.files, all, |all|);
    AtMost(all, |all|);
  }

  lemma {:induction false} AtMost(files: seq<FileInfo>, n: nat)
    requires n <= |files|
    ensures NonEmpty(files, n) <= n
  {
    if n > 0 {
      AtMost(files, n - 1);
    }
  }

  lemma {:induction false} SameMappable(bs: nat, a: seq<FileInfo>, b: seq<FileInfo>)
    requires bs >= 1024 && SameFiles(a, b)
    ensures Mappable(bs, a) <==> Mappable(bs, b)
  {
    forall ino: nat ensures Present(a, ino) <==> Present(b, ino) {
    }
  }

  /** A placed record takes less than twice its size. */
  lemma {:induction false} BinfoBound(bs: nat, at: nat, useReal: bool, fi: Finfo, n: nat)
    requires bs >= 1024 && n <= fi.ndatablk
    ensures BinfoEnd(bs, at, useReal, fi, n) <= at + FINFO_SIZE + 32 * n
  {
    if n > 0 {
      BinfoBound(bs, at, useReal, fi, n - 1);
    }
  }

  /** So the summary of files that are all mapped is short. */
  lemma {:induction false} SummaryBound(bs: nat, files: seq<FileInfo>, n: nat)
    requires bs >= 1024 && n <= |files| && AllMapped(files)
    ensures SummaryEnd(bs, files, n) <= SEGSUM_SIZE + 240 * n
  {
    hide BinfoEnd;
    if n > 0 {
      SummaryBound(bs, files, n - 1);
      if files[n - 1].nblocks > 0 {
        BinfoBound(bs, FinfoOffset(bs, files, n - 1), IsDat(files[n - 1]), FinfoOf(files[n - 1]), files[n - 1].nblocks);
      }
    }
  }

  /** The log of an accepted layout fits the disk, and its numbers fit their fields. */
  lemma {:induction false} AfterLayout(si: SegmentInfo, perSegment: nat, length: nat, wanted: seq<FileInfo>)
    requires si.LaidOut() && si.nblocks <= perSegment && si.startBlocknr <= perSegment
    requires BlocksEnd(si.bs, 0, 2 * perSegment) <= length
    requires SameFiles(si.files, WithDat(si.bs, wanted)) && AllMapped(si.files) && |si.files| <= MAX_FILES
    ensures si.sumbytes < LIMIT32 && si.Base() + SEGSUM_SIZE <= length &&
            BlocksEnd(si.bs, si.Base(), si.nblocks) <= length
    ensures si.nvblocknrs == Virtuals(wanted, |wanted|)
  {
    hide SummaryEnd, BlockSize;
    SummaryFits(si);
    SummaryBound(si.bs, si.files, |si.files|);
    MulMonotone(si.bs, 1, si.nblocks);
    MulMonotone(si.bs, si.startBlocknr + si.nblocks, 2 * perSegment);
    Distribute(si.bs, si.startBlocknr, si.nblocks);
    var all := WithDat(si.bs, wanted);
    SameLayout(si.bs, si.files, all, |all|);
    SameLayout(si.bs, all, wanted, |wanted|);
  }

  /** The entries of the DAT suffice just when DatFits says so. */
  lemma {:induction false} Capacity(bs: nat, numbers: nat)
    requires bs >= 1024 && CountDatBlocks(bs, numbers) <= MAX_BMAP_ROOT_PTRS
    ensures DatFits(bs, numbers) <==>
            (numbers == 0 || (1 + numbers <= (CountDatBlocks(bs, numbers) - GROUP_BLOCKS) * (bs / DAT_ENTRY_SIZE) &&
                              1 + numbers <= 8 * bs))
  {
    DatCapacity(bs, numbers);
  }
}
