/** How mkfs lays out the files of the initial segment before it writes anything. */
module MkfsLayout {
  import opened Arithmetic
  import opened Layout
  import opened SegmentFormat

  const MAX_FILES: nat := 16
  const MAX_INITIAL_INO: nat := 11
  const FIRST_CNO: nat := 1
  const MAX_BMAP_ROOT_PTRS: nat := 6    // the block map of an inode has one entry more

  /** struct nilfs_file_info */
  datatype FileInfo = FileInfo(ino: nat, startBlocknr: nat, nblocks: nat)

  /** The finfo that mkfs writes for a file: data blocks only. */
  function FinfoOf(f: FileInfo): Finfo { Finfo(f.ino, FIRST_CNO, f.nblocks, f.nblocks) }

  predicate IsDat(f: FileInfo) { f.ino == DAT_INO }

  // ----- what the layout computes, by the plain meaning of each number -----

  /** The end of the summary when the records of the first n files are placed one by one. */
  function SummaryEnd(bs: nat, files: seq<FileInfo>, n: nat): (end: nat)
    requires bs > 0 && n <= |files|
    ensures end >= SEGSUM_SIZE
    decreases n, 0
  {
    if n == 0 then SEGSUM_SIZE
    else if files[n - 1].nblocks == 0 then SummaryEnd(bs, files, n - 1)
    else BinfoEnd(bs, FinfoOffset(bs, files, n - 1), IsDat(files[n - 1]), FinfoOf(files[n - 1]), files[n - 1].nblocks)
  }

  /** Where the finfo of file i lies. */
  function FinfoOffset(bs: nat, files: seq<FileInfo>, i: nat): (at: nat)
    requires bs > 0 && i < |files|
    ensures at >= SEGSUM_SIZE
    decreases i, 1
  {
    Place(bs, SummaryEnd(bs, files, i), FINFO_SIZE)
  }

  /** The number of payload blocks of the first n files. */
  function Payload(files: seq<FileInfo>, n: nat): nat
    requires n <= |files|
  {
    if n == 0 then 0 else Payload(files, n - 1) + files[n - 1].nblocks
  }

  /** The number of files among the first n that have blocks. */
  function NonEmpty(files: seq<FileInfo>, n: nat): nat
    requires n <= |files|
  {
    if n == 0 then 0 else NonEmpty(files, n - 1) + (if files[n - 1].nblocks > 0 then 1 else 0)
  }

  /** The number of blocks of the first n files that get virtual numbers. */
  function Virtuals(files: seq<FileInfo>, n: nat): nat
    requires n <= |files|
  {
    if n == 0 then 0 else Virtuals(files, n - 1) + (if IsDat(files[n - 1]) then 0 else files[n - 1].nblocks)
  }

  /** These numbers depend on the inodes and block counts of the first n files only. */
  lemma {:induction false} SameLayout(bs: nat, a: seq<FileInfo>, b: seq<FileInfo>, n: nat)
    requires bs > 0 && n <= |a| && n <= |b|
    requires forall i :: 0 <= i < n ==> a[i].ino == b[i].ino && a[i].nblocks == b[i].nblocks
    ensures SummaryEnd(bs, a, n) == SummaryEnd(bs, b, n) && Payload(a, n) == Payload(b, n)
    ensures NonEmpty(a, n) == NonEmpty(b, n) && Virtuals(a, n) == Virtuals(b, n)
  {
    if n > 0 {
      SameLayout(bs, a, b, n - 1);
    }
  }

  lemma {:induction false} AppendFile(bs: nat, files: seq<FileInfo>, fi: FileInfo)
    requires bs > 0
    ensures var all, n := files + [fi], |files|;
            && Payload(all, n + 1) == Payload(files, n) + fi.nblocks
            && NonEmpty(all, n + 1) == NonEmpty(files, n) + (if fi.nblocks > 0 then 1 else 0)
            && Virtuals(all, n + 1) == Virtuals(files, n) + (if IsDat(fi) then 0 else fi.nblocks)
            && SummaryEnd(bs, all, n + 1) ==
               if fi.nblocks == 0 then SummaryEnd(bs, files, n)
               else BinfoEnd(bs, Place(bs, SummaryEnd(bs, files, n), FINFO_SIZE), IsDat(fi), FinfoOf(fi), fi.nblocks)
  {
    hide BinfoEnd, Place;
    SameLayout(bs, files, files + [fi], |files|);
  }

  /** The two closed forms of increment_segsum_size give the end of a file's records. */
  lemma {:induction false} IncrementExact(bs: nat, end: nat, f: FileInfo)
    requires BlockSize(bs) && bs >= 1024
    ensures IncrementSegsumSize(bs, end, FINFO_SIZE, 1) == Place(bs, end, FINFO_SIZE) + FINFO_SIZE
    ensures IncrementSegsumSize(bs, Place(bs, end, FINFO_SIZE) + FINFO_SIZE, DataSize(IsDat(f)), f.nblocks) ==
            BinfoEnd(bs, Place(bs, end, FINFO_SIZE), IsDat(f), FinfoOf(f), f.nblocks)
  {
    hide IncrementSegsumSize, BinfoEnd, Place, BlockSize;
    ClosedFormExact(bs, end, FINFO_SIZE, 1);
    assert bs / FINFO_SIZE >= 42;
    assert Advance(bs, end, FINFO_SIZE, 0) == end;
    hide Advance;
    OneOf(bs / FINFO_SIZE);
    AdvanceOne(bs, end, FINFO_SIZE);
    var start := Place(bs, end, FINFO_SIZE);
    TotalIsAdvance(bs, start + FINFO_SIZE, DataSize(IsDat(f)), f.nblocks);
    BinfoEndData(bs, start, IsDat(f), FinfoOf(f), f.nblocks);
  }

  lemma {:induction false} PayloadStart(files: seq<FileInfo>)
    ensures Payload(files, 0) == 0
  {
  }

  lemma {:induction false} PayloadNext(files: seq<FileInfo>, j: nat)
    requires j < |files|
    ensures Payload(files, j + 1) == Payload(files, j) + files[j].nblocks
  {
  }

  lemma {:induction false} OneOf(per: nat)
    requires per >= 2
    ensures 1 % per == 1
  {
  }

  lemma {:induction false} AdvanceOne(bs: nat, offset: nat, size: nat)
    requires bs > 0
    ensures Advance(bs, offset, size, 1) == Place(bs, offset, size) + size
  {
    AdvanceStep(bs, offset, size, 1);
    assert Advance(bs, offset, size, 0) == offset;
  }

  /** struct nilfs_segment_info */
  class SegmentInfo {
    const bs: nat
    const startBlocknr: nat
    var nblocks: nat
    var nfinfo: nat
    var files: seq<FileInfo>
    var sumbytes: nat
    var nblkSum: nat
    var nvblocknrs: nat

    /** The address of the segment on the disk. */
    function Base(): nat {
      MulNat(startBlocknr, bs);
      startBlocknr * bs
    }

    /** The counts are exact for the files added so far. */
    ghost predicate Counted()
      reads this
    {
      && BlockSize(bs) && bs >= 1024
      && sumbytes == SummaryEnd(bs, files, |files|)
      && nblkSum == (sumbytes + bs - 1) / bs
      && nfinfo == NonEmpty(files, |files|)
      && nvblocknrs == Virtuals(files, |files|)
    }

    /** new_segment */
    constructor (bs: nat, firstSegmentBlock: nat)
      requires BlockSize(bs) && bs >= 1024
      ensures Counted() && files == [] && nblocks == 0 && this.bs == bs && startBlocknr == firstSegmentBlock
    {
      this.bs := bs;
      nblocks, nfinfo, files, nvblocknrs := 0, 0, [], 0;
      sumbytes := SEGSUM_SIZE;
      nblkSum := (SEGSUM_SIZE + bs - 1) / bs;
      startBlocknr := firstSegmentBlock;
    }

    /** add_file; callers set the flag for the DAT only. */
    method AddFile(ino: nat, count: nat, datFlag: bool) returns (ok: bool)
      requires Counted() && nblocks == Payload(files, |files|)
      requires datFlag <==> ino == DAT_INO
      modifies this
      ensures ok <==> |old(files)| < MAX_FILES && ino < MAX_INITIAL_INO
      ensures ok ==> Counted() && nblocks == Payload(files, |files|)
      ensures files == if ok then old(files) + [FileInfo(ino, 0, count)] else old(files)
    {
      hide IncrementSegsumSize, BinfoEnd, Place, BlockSize, SummaryEnd, Payload, NonEmpty, Virtuals;
      if |files| >= MAX_FILES {
        return false;
      }
      if ino >= MAX_INITIAL_INO {
        return false;
      }
      ghost var before := files;
      var fi := FileInfo(ino, 0, count);
      files := files + [fi];
      nblocks := nblocks + count;
      AppendFile(bs, before, fi);
      if count > 0 {
        nfinfo := nfinfo + 1;
        IncrementExact(bs, sumbytes, fi);
        var size1 := IncrementSegsumSize(bs, sumbytes, FINFO_SIZE, 1);
        sumbytes := IncrementSegsumSize(bs, size1, if datFlag then 8 else 16, count);
        if !datFlag {
          nvblocknrs := nvblocknrs + count;
        }
        nblkSum := (sumbytes + bs - 1) / bs;
      }
      return true;
    }

    /** The summary, the payload of the files in order, and the super root, without gaps. */
    ghost predicate LaidOut()
      reads this
    {
      && Counted()
      && nblocks == Payload(files, |files|) + nblkSum + 1
      && forall i :: 0 <= i < |files| && files[i].nblocks > 0 ==>
                       files[i].startBlocknr == startBlocknr + nblkSum + Payload(files, i)
    }

    /** fix_disk_layout */
    method FixDiskLayout(blocksPerSegment: nat) returns (ok: bool)
      requires Counted() && nblocks == Payload(files, |files|)
      modifies `nblocks, `files
      ensures |files| == |old(files)|
      ensures forall i :: 0 <= i < |files| ==>
              files[i].ino == old(files)[i].ino && files[i].nblocks == old(files)[i].nblocks
      ensures nblocks == old(nblocks) + nblkSum + 1
      ensures ok <==> nblocks <= blocksPerSegment
      ensures ok ==> LaidOut()
    {
      hide SummaryEnd, BlockSize, Payload, NonEmpty, Virtuals;
      var blocknr := startBlocknr + nblkSum;
      nblocks := nblocks + nblkSum + 1;
      if nblocks > blocksPerSegment {
        return false;
      }
      ghost var before := files;
      PayloadStart(before);
      var fs := files;
      var j := 0;
      while j < |fs|
        invariant j <= |fs| == |before| && nblocks == old(nblocks) + nblkSum + 1
        invariant forall i :: 0 <= i < |fs| ==> fs[i].ino == before[i].ino && fs[i].nblocks == before[i].nblocks
        invariant blocknr == startBlocknr + nblkSum + Payload(before, j)
        invariant forall i :: 0 <= i < j && fs[i].nblocks > 0 ==>
                                fs[i].startBlocknr == startBlocknr + nblkSum + Payload(before, i)
      {
        PayloadNext(before, j);
        if fs[j].nblocks != 0 {
          fs := fs[j := fs[j].(startBlocknr := blocknr)];
          blocknr := blocknr + fs[j].nblocks;
        }
        j := j + 1;
      }
      files := fs;
      SameLayout(bs, before, fs, |fs|);
      forall i | 0 <= i < |fs| ensures Payload(fs, i) == Payload(before, i) {
        SameLayout(bs, before, fs, i);
      }
      return true;
    }
  }
}
