/** The segment iterators read back exactly what mkfs has written. */
module RoundTrip {
  import opened Arithmetic
  import opened Layout
  import opened Bytes
  import opened SegmentFormat
  import opened SegmentReader
  import opened MkfsLayout
  import opened MkfsWriter
  import opened MkfsCommit
  import opened MkfsInodes
  import opened MkfsMain
  import opened MkfsInitial
  import opened Bitmaps
  import opened Vectors
  import BlockCollect
  import Wrappers

  /** The segment that nilfs_get_segment maps, over the bytes that mkfs wrote. */
  ghost predicate Maps(seg: Segment, buf: seq<Byte>, si: SegmentInfo, seed: bv32) {
    && seg.bs == si.bs && seg.blocknr == si.startBlocknr && seg.seed == seed
    && si.Base() <= BlocksEnd(si.bs, si.Base(), seg.nblocks) <= |buf|
    && seg.addr == buf[si.Base()..BlocksEnd(si.bs, si.Base(), seg.nblocks)]
  }

  /** Reading from a part of a buffer. */
  lemma {:induction false} LeWithin(buf: seq<Byte>, lo: nat, hi: nat, off: nat, n: nat)
    requires lo <= hi <= |buf| && off + n <= hi - lo
    ensures Le(buf[lo..hi], off, n) == Le(buf, lo + off, n)
    decreases n
  {
    if n > 0 {
      LeWithin(buf, lo, hi, off + 1, n - 1);
    }
  }

  lemma {:induction false} FinfoWithin(buf: seq<Byte>, lo: nat, hi: nat, at: nat)
    requires lo <= hi <= |buf| && at + FINFO_SIZE <= hi - lo
    ensures ReadFinfo(buf[lo..hi], at) == ReadFinfo(buf, lo + at)
  {
    hide Le;
    LeWithin(buf, lo, hi, at, 8);
    LeWithin(buf, lo, hi, at + 8, 8);
    LeWithin(buf, lo, hi, at + 16, 4);
    LeWithin(buf, lo, hi, at + 20, 4);
  }

  lemma {:induction false} BinfoWithinPart(buf: seq<Byte>, lo: nat, hi: nat, at: nat, useReal: bool)
    requires lo <= hi <= |buf| && at + DataSize(useReal) <= hi - lo
    ensures ReadBinfo(buf[lo..hi], at, useReal, true) == ReadBinfo(buf, lo + at, useReal, true)
  {
    hide Le;
    LeWithin(buf, lo, hi, at, 8);
    if !useReal {
      LeWithin(buf, lo, hi, at + 8, 8);
    }
  }

  lemma {:induction false} SegsumWithin(buf: seq<Byte>, lo: nat, hi: nat)
    requires lo + SEGSUM_SIZE <= hi <= |buf|
    ensures ReadSegsum(buf[lo..hi], 0) == ReadSegsum(buf, lo)
  {
    hide Le;
    LeWithin(buf, lo, hi, 4, 4);
    LeWithin(buf, lo, hi, 8, 4);
    LeWithin(buf, lo, hi, 12, 2);
    LeWithin(buf, lo, hi, 40, 4);
    LeWithin(buf, lo, hi, 44, 4);
    LeWithin(buf, lo, hi, 48, 4);
  }

  // ----- the log -----

  /** The log that mkfs wrote. */
  function TheLog(seg: Segment): Pseg
    requires SEGSUM_SIZE <= |seg.addr|
  {
    Pseg(0, seg.blocknr, ReadSegsum(seg.addr, 0))
  }

  lemma {:induction false} MappedSegment(seg: Segment, buf: seq<Byte>, si: SegmentInfo, seed: bv32)
    requires si.LaidOut() && Maps(seg, buf, si, seed) && Written(buf, si) && seg.nblocks >= PSEG_MIN_BLOCKS
    ensures ValidSegment(seg) && SEGSUM_SIZE <= |seg.addr| && seg.bs == si.bs >= 1024 && seg.blocknr == si.startBlocknr
    ensures PsegPosition(seg, 0, seg.blocknr, seg.nblocks)
    ensures var h := ReadSegsum(seg.addr, 0);
            h == Segsum(h.sumsum, SEGSUM_MAGIC, SEGSUM_SIZE, si.nblocks, si.nfinfo, si.sumbytes)
    ensures ReadSegsum(seg.addr, 0).sumsum == Le(buf, si.Base() + 4, 4)
  {
    hide BlockSize, LogWritten, SummaryEnd, Le;
    MulMonotone(seg.bs, 1, seg.nblocks);
    SegsumWithin(buf, si.Base(), BlocksEnd(si.bs, si.Base(), seg.nblocks));
  }

  /** The checksum that mkfs took is that of the summary. */
  ghost predicate SumRight(buf: seq<Byte>, si: SegmentInfo, seed: bv32, behind: nat -> Byte)
    reads si
  {
    Summed(buf, si.bs, si.Base(), si.sumbytes, seed, behind)
  }

  lemma {:induction false} SumBlocks(si: SegmentInfo)
    requires si.LaidOut()
    ensures si.bs > 0 && RoundUpBlocks(si.bs, si.sumbytes) < si.nblocks
  {
    hide SummaryEnd, BlockSize;
  }

  /** What the checks of a log come to when its header is the one that mkfs writes. */
  lemma {:induction false} HeaderChecked(seg: Segment, nblocks: nat, nfinfo: nat, sumbytes: nat)
    requires seg.bs > 0 && SEGSUM_SIZE <= |seg.addr| && SEGSUM_SIZE <= sumbytes &&
             RoundUpBlocks(seg.bs, sumbytes) < nblocks
    requires var h := ReadSegsum(seg.addr, 0);
             h == Segsum(h.sumsum, SEGSUM_MAGIC, SEGSUM_SIZE, nblocks, nfinfo, sumbytes)
    ensures var check := CheckPseg(seg, 0, seg.blocknr);
            && (check.0 <==> && sumbytes < |seg.addr| && nblocks <= seg.nblocks
                             && ReadSegsum(seg.addr, 0).sumsum == Checksum(seg.seed, seg.addr[SUMSUM_END..sumbytes]))
            && (nblocks <= seg.nblocks ==> check.1 == PsegSuccess)
  {
    hide ReadSegsum, RoundUpBlocks, Checksum;
  }

  /**
   The log passes the checks just when it lies within its segment and the checksum of its summary is
   right; if that fails, the log is passed over without an error.
   */
  lemma {:induction false} LogAccepted(seg: Segment, buf: seq<Byte>, si: SegmentInfo, seed: bv32, behind: nat -> Byte)
    requires si.LaidOut() && Maps(seg, buf, si, seed) && Committed(buf, si, seed, behind) &&
             seg.nblocks >= PSEG_MIN_BLOCKS
    ensures SEGSUM_SIZE <= |seg.addr|
    ensures CheckPseg(seg, 0, seg.blocknr).0 <==>
            si.startBlocknr + si.nblocks <= seg.blocknr + seg.nblocks && SumRight(buf, si, seed, behind)
    ensures si.nblocks <= seg.nblocks && !SumRight(buf, si, seed, behind) ==>
            CheckPseg(seg, 0, seg.blocknr).1 == PsegSuccess
  {
    hide BlockSize, LogWritten, SummaryEnd, Le, ReadSegsum, BlocksEnd, ChecksumWord, ToNat, SummaryBytes, CheckPseg,
      HeaderWritten,
      SegmentInfo.Base;
    MappedSegment(seg, buf, si, seed);
    SummaryFits(si);
    SumBlocks(si);
    HeaderChecked(seg, si.nblocks, si.nfinfo, si.sumbytes);
    if si.nblocks <= seg.nblocks {
      SummaryInside(seg, buf, si, seed);
      ToNatInjective(ChecksumWord(seed, SummaryBytes(buf, si.bs, si.Base(), si.sumbytes, behind)),
                     ChecksumWord(seed, buf[si.Base() + 8..si.Base() + si.sumbytes]));
    }
  }

  /**
   Whatever lies behind the first block when mkfs runs, the checksum is right just when the summary fits
   in that block.
   */
  lemma {:induction false} SumRightIff(buf: seq<Byte>, si: SegmentInfo, seed: bv32)
    requires si.LaidOut() && Written(buf, si)
    ensures (forall behind: nat -> Byte :: SumRight(buf, si, seed, behind)) <==> si.sumbytes <= si.bs
  {
    hide SegmentInfo.LaidOut, HeaderWritten, LogWritten, SegmentInfo.Base;
    SummaryFits(si);
    SummedIff(buf, si.bs, si.Base(), si.sumbytes, seed);
    if si.sumbytes <= si.bs {
      forall behind: nat -> Byte ensures SumRight(buf, si, seed, behind) {
        assert Summed(buf, si.bs, si.Base(), si.sumbytes, seed, behind);
      }
    } else {
      var behind: nat -> Byte :| !Summed(buf, si.bs, si.Base(), si.sumbytes, seed, behind);
      assert !SumRight(buf, si, seed, behind);
    }
  }

  lemma {:induction false} SummaryInside(seg: Segment, buf: seq<Byte>, si: SegmentInfo, seed: bv32)
    requires si.LaidOut() && Maps(seg, buf, si, seed) && si.nblocks <= seg.nblocks
    ensures SUMSUM_END <= si.sumbytes < |seg.addr|
    ensures seg.addr[SUMSUM_END..si.sumbytes] == buf[si.Base() + 8..si.Base() + si.sumbytes]
  {
    hide BlockSize, LogWritten, SummaryEnd, BlocksEnd;
    SummaryFits(si);
    BlocksStep(si.bs, si.Base(), si.nblocks - 1);
    BlocksMonotone(si.bs, si.Base(), si.nblocks, seg.nblocks);
    SliceOfSlice(buf, si.Base(), BlocksEnd(si.bs, si.Base(), seg.nblocks), SUMSUM_END, si.sumbytes);
  }

  lemma {:induction false} SliceOfSlice(buf: seq<Byte>, lo: nat, hi: nat, i: nat, j: nat)
    requires lo <= hi <= |buf| && i <= j <= hi - lo
    ensures buf[lo..hi][i..j] == buf[lo + i..lo + j]
  {
    assert forall k :: 0 <= k < j - i ==> buf[lo..hi][i..j][k] == buf[lo + i..lo + j][k];
  }

  lemma {:induction false} LastLog(seg: Segment, nblocks: nat)
    requires ValidSegment(seg) && SEGSUM_SIZE <= |seg.addr| && PsegPosition(seg, 0, seg.blocknr, nblocks)
    requires nblocks >= PSEG_MIN_BLOCKS && CheckPseg(seg, 0, seg.blocknr).0 &&
             ReadSegsum(seg.addr, 0).nblocks == nblocks
    ensures Psegs(seg, 0, seg.blocknr, nblocks) == ([TheLog(seg)], PsegSuccess)
  {
    hide ReadSegsum, ValidSegment, Checksum;
    SkipPseg(seg, 0, seg.blocknr, nblocks);
    assert [TheLog(seg)] + [] == [TheLog(seg)];
    assert Psegs(seg, nblocks * seg.bs, seg.blocknr + nblocks, 0) == ([], PsegSuccess);
  }

  /** The log lies within the segment. */
  lemma {:induction false} LogInside(seg: Segment, buf: seq<Byte>, si: SegmentInfo, seed: bv32)
    requires si.LaidOut() && Maps(seg, buf, si, seed) && Written(buf, si) && seg.nblocks >= PSEG_MIN_BLOCKS
    requires si.nblocks <= seg.nblocks
    ensures SEGSUM_SIZE <= |seg.addr| && ValidPseg(seg, TheLog(seg))
  {
    hide BlockSize, LogWritten, SummaryEnd, Le, ReadSegsum, BlocksEnd, SegmentInfo.Base, ValidSegment;
    MappedSegment(seg, buf, si, seed);
    SummaryFits(si);
    SummaryInside(seg, buf, si, seed);
  }

  /** A mapped segment holds that one log and no other. */
  lemma {:induction false} OneLog(seg: Segment, buf: seq<Byte>, si: SegmentInfo, seed: bv32, behind: nat -> Byte)
    requires si.LaidOut() && Maps(seg, buf, si, seed) && Committed(buf, si, seed, behind) &&
             seg.nblocks >= PSEG_MIN_BLOCKS
    requires si.nblocks <= seg.nblocks && SumRight(buf, si, seed, behind)
    ensures ValidSegment(seg) && SEGSUM_SIZE <= |seg.addr| && PsegPosition(seg, 0, seg.blocknr, si.nblocks)
    ensures Psegs(seg, 0, seg.blocknr, si.nblocks) == ([TheLog(seg)], PsegSuccess)
  {
    hide BlockSize, Written, SummaryEnd, Le, ReadSegsum, BlocksEnd, CheckPseg, Checksum, SegmentInfo.Base, Psegs,
      ValidSegment, SumRight;
    MappedSegment(seg, buf, si, seed);
    LogAccepted(seg, buf, si, seed, behind);
    SummaryFits(si);
    LastLog(seg, si.nblocks);
  }

  /** When the checksum of its summary is wrong, the segment seems to hold none. */
  lemma {:induction false} NoLog(seg: Segment, buf: seq<Byte>, si: SegmentInfo, seed: bv32, behind: nat -> Byte)
    requires si.LaidOut() && Maps(seg, buf, si, seed) && Committed(buf, si, seed, behind) &&
             seg.nblocks >= PSEG_MIN_BLOCKS
    requires si.nblocks <= seg.nblocks && !SumRight(buf, si, seed, behind)
    ensures ValidSegment(seg) && PsegPosition(seg, 0, seg.blocknr, si.nblocks)
    ensures Psegs(seg, 0, seg.blocknr, si.nblocks) == ([], PsegSuccess)
  {
    hide BlockSize, Written, SummaryEnd, Le, ReadSegsum, BlocksEnd, CheckPseg, Checksum, SegmentInfo.Base, ValidSegment,
      SumRight;
    MappedSegment(seg, buf, si, seed);
    LogAccepted(seg, buf, si, seed, behind);
    SummaryFits(si);
  }

  // ----- the files -----

  /** File i of the log, as the reader is to see it. */
  function TheFile(bs: nat, files: seq<FileInfo>, i: nat): File
    requires bs > 0 && i < |files|
  {
    File(FinfoOffset(bs, files, i), files[i].startBlocknr, FinfoOf(files[i]), IsDat(files[i]))
  }

  /** The files from index i on that have blocks, as the reader is to see them. */
  function Expected(bs: nat, files: seq<FileInfo>, i: nat): seq<File>
    requires bs > 0 && i <= |files|
    decreases |files| - i
  {
    if i == |files| then []
    else if files[i].nblocks == 0 then Expected(bs, files, i + 1)
    else [TheFile(bs, files, i)] + Expected(bs, files, i + 1)
  }

  /** The finfo of a file of the log, read back. */
  lemma {:induction false} FileRead(seg: Segment, buf: seq<Byte>, si: SegmentInfo, seed: bv32, i: nat)
    requires si.LaidOut() && Maps(seg, buf, si, seed) && Written(buf, si) && seg.nblocks >= PSEG_MIN_BLOCKS
    requires si.nblocks <= seg.nblocks && i < |si.files| && si.files[i].nblocks > 0
    ensures seg.bs == si.bs >= 1024 && SEGSUM_SIZE <= |seg.addr|
    ensures var p, at, f := TheLog(seg), FinfoOffset(si.bs, si.files, i), si.files[i];
            && at + FINFO_SIZE <= si.sumbytes < |seg.addr|
            && FileAt(seg, p, at, f.startBlocknr) == File(at, f.startBlocknr, FinfoOf(f), IsDat(f))
  {
    hide BlockSize, Le, ReadSegsum, ReadFinfo, BlocksEnd, Checksum, BinfoEnd, Place, BinfoWritten, SegmentInfo.Base,
      HeaderWritten;
    MappedSegment(seg, buf, si, seed);
    SummaryInside(seg, buf, si, seed);
    FitsInLog(si, i);
    var at := FinfoOffset(si.bs, si.files, i);
    assert FileInLog(buf, si.Base(), si.bs, si.files, i);
    FinfoWithin(buf, si.Base(), BlocksEnd(si.bs, si.Base(), seg.nblocks), at);
  }

  /** A file of the log passes the checks, and is the one that was added. */
  lemma {:induction false} FileAccepted(seg: Segment, buf: seq<Byte>, si: SegmentInfo, seed: bv32, i: nat)
    requires si.LaidOut() && Maps(seg, buf, si, seed) && Written(buf, si) && seg.nblocks >= PSEG_MIN_BLOCKS
    requires si.nblocks <= seg.nblocks && i < |si.files| && si.files[i].nblocks > 0
    ensures seg.bs == si.bs >= 1024 && SEGSUM_SIZE <= |seg.addr| && ValidPseg(seg, TheLog(seg))
    ensures var p, at, f := TheLog(seg), FinfoOffset(si.bs, si.files, i), si.files[i];
            && at + FINFO_SIZE <= |seg.addr| && p.blocknr <= f.startBlocknr
            && CheckFile(seg, p, at, f.startBlocknr) == FileSuccess
            && FileAt(seg, p, at, f.startBlocknr) == File(at, f.startBlocknr, FinfoOf(f), IsDat(f))
            && at + SumLength(seg, p, at) == SummaryEnd(si.bs, si.files, i + 1)
            && f.startBlocknr == FirstBlock(seg, p) + Payload(si.files, i)
            && BlockCollect.GoodFile(seg, p, FileAt(seg, p, at, f.startBlocknr))
  {
    hide BlockSize, Le, ReadSegsum, ReadFinfo, BlocksEnd, CheckPseg, Checksum, FileInfoSize, BinfoEnd, Place,
      SegmentInfo.Base, Psegs, Maps, Written;
    FileRead(seg, buf, si, seed, i);
    LogInside(seg, buf, si, seed);
    MappedSegment(seg, buf, si, seed);
    FitsInLog(si, i);
    LayoutMonotone(si.bs, si.files, i + 1, |si.files|);
    var f := si.files[i];
    FileInfoSizeExact(si.bs, FinfoOffset(si.bs, si.files, i), IsDat(f), FinfoOf(f));
  }

  /** From file i on, the iterator yields exactly the files that have blocks. */
  ghost predicate YieldsFrom(seg: Segment, si: SegmentInfo, i: nat)
    reads si
    requires si.bs > 0 && i <= |si.files| && seg.bs == si.bs && SEGSUM_SIZE <= |seg.addr| && ValidPseg(seg, TheLog(seg))
  {
    var p := TheLog(seg);
    Files(seg, p, NonEmpty(si.files, i), Place(si.bs, SummaryEnd(si.bs, si.files, i), FINFO_SIZE),
          FirstBlock(seg, p) + Payload(si.files, i))
    == (Expected(si.bs, si.files, i), FileSuccess)
  }

  lemma {:induction false} FilesFrom(seg: Segment, buf: seq<Byte>, si: SegmentInfo, seed: bv32, i: nat)
    requires si.LaidOut() && Maps(seg, buf, si, seed) && Written(buf, si) && seg.nblocks >= PSEG_MIN_BLOCKS
    requires si.nblocks <= seg.nblocks && i <= |si.files|
    ensures seg.bs == si.bs >= 1024 && SEGSUM_SIZE <= |seg.addr| && ValidPseg(seg, TheLog(seg))
    ensures YieldsFrom(seg, si, i)
    decreases |si.files| - i
  {
    hide SegmentInfo.LaidOut, Maps, Written, ReadSegsum, ValidPseg, YieldsFrom, TheLog;
    LogInside(seg, buf, si, seed);
    MappedSegment(seg, buf, si, seed);
    if i == |si.files| {
      YieldsNone(seg, buf, si, seed);
    } else {
      FilesFrom(seg, buf, si, seed, i + 1);
      YieldsOne(seg, buf, si, seed, i);
    }
  }

  lemma {:induction false} YieldsNone(seg: Segment, buf: seq<Byte>, si: SegmentInfo, seed: bv32)
    requires si.LaidOut() && Maps(seg, buf, si, seed) && Written(buf, si) && seg.nblocks >= PSEG_MIN_BLOCKS
    requires si.nblocks <= seg.nblocks
    requires seg.bs == si.bs >= 1024 && SEGSUM_SIZE <= |seg.addr| && ValidPseg(seg, TheLog(seg))
    ensures YieldsFrom(seg, si, |si.files|)
  {
    hide BlockSize, Le, ReadSegsum, Place, ValidPseg, Maps, Written, SummaryEnd, RoundUpBlocks, Files;
    MappedSegment(seg, buf, si, seed);
    var p, n := TheLog(seg), |si.files|;
    NoMoreFiles(seg, p, NonEmpty(si.files, n), Place(si.bs, SummaryEnd(si.bs, si.files, n), FINFO_SIZE),
                FirstBlock(seg, p) + Payload(si.files, n));
  }

  lemma {:induction false} YieldsOne(seg: Segment, buf: seq<Byte>, si: SegmentInfo, seed: bv32, i: nat)
    requires si.LaidOut() && Maps(seg, buf, si, seed) && Written(buf, si) && seg.nblocks >= PSEG_MIN_BLOCKS
    requires si.nblocks <= seg.nblocks && i < |si.files|
    requires seg.bs == si.bs >= 1024 && SEGSUM_SIZE <= |seg.addr| && ValidPseg(seg, TheLog(seg))
    requires YieldsFrom(seg, si, i + 1)
    ensures YieldsFrom(seg, si, i)
  {
    hide BlockSize, Le, ReadSegsum, BlocksEnd, Place, CheckFile, FileAt, SumLength, ValidPseg, Maps, Written,
      SummaryEnd,
      RoundUpBlocks, Files;
    MappedSegment(seg, buf, si, seed);
    FitsInLog(si, i);
    if si.files[i].nblocks > 0 {
      FileAccepted(seg, buf, si, seed, i);
      LayoutMonotone(si.bs, si.files, i + 1, |si.files|);
      FilesStep(seg, TheLog(seg), NonEmpty(si.files, i), FinfoOffset(si.bs, si.files, i), si.files[i].startBlocknr);
    }
  }

  lemma {:induction false} NoMoreFiles(seg: Segment, p: Pseg, index: nat, offset: nat, blocknr: nat)
    requires ValidPseg(seg, p) && p.blocknr <= blocknr && index >= p.header.nfinfo
    ensures Files(seg, p, index, offset, blocknr) == ([], FileSuccess)
  {
  }

  /**
   The format round trip: the file iterator accepts the summary and yields exactly the files that
   have blocks, in the order in which they were added.
   */
  lemma {:induction false} FilesReadBack(seg: Segment, buf: seq<Byte>, si: SegmentInfo, seed: bv32)
    requires si.LaidOut() && Maps(seg, buf, si, seed) && Written(buf, si) && seg.nblocks >= PSEG_MIN_BLOCKS
    requires si.nblocks <= seg.nblocks
    ensures si.bs > 0 && SEGSUM_SIZE <= |seg.addr| && ValidPseg(seg, TheLog(seg))
    ensures FilesOf(seg, TheLog(seg)) == (Expected(si.bs, si.files, 0), FileSuccess)
  {
    hide BlockSize, Le, ReadSegsum, Maps, Written, SummaryEnd, Files, Place, ValidPseg, FirstBlock;
    MappedSegment(seg, buf, si, seed);
    FilesFrom(seg, buf, si, seed, 0);
    assert SummaryEnd(si.bs, si.files, 0) == SEGSUM_SIZE by { StartFiles(buf, [], 0, si.bs, si.files, 0); }
  }

  /** A block of a file, as the reader is to see it. */
  function ExpectedBlock(files: seq<FileInfo>, i: nat, k: nat): BlockCollect.Block
    requires i < |files|
  {
    var f := files[i];
    BlockCollect.Block(f.ino, FIRST_CNO, f.startBlocknr + k, BinfoFor(f, First(files, i), k))
  }

  lemma {:induction false} TheFileGood(seg: Segment, buf: seq<Byte>, si: SegmentInfo, seed: bv32, i: nat)
    requires si.LaidOut() && Maps(seg, buf, si, seed) && Written(buf, si) && seg.nblocks >= PSEG_MIN_BLOCKS
    requires si.nblocks <= seg.nblocks && i < |si.files| && si.files[i].nblocks > 0
    ensures si.bs > 0 && SEGSUM_SIZE <= |seg.addr|
    ensures BlockCollect.GoodFile(seg, TheLog(seg), TheFile(si.bs, si.files, i))
  {
    hide BlockSize, Le, ReadSegsum, Maps, Written, BlockCollect.GoodFile, CheckFile, SumLength, FirstBlock, Place,
      FinfoOffset, ValidPseg;
    MappedSegment(seg, buf, si, seed);
    FileAccepted(seg, buf, si, seed, i);
  }

  lemma {:induction false} BlockOfFile(seg: Segment, p: Pseg, f: File, n: nat, k: nat)
    requires BlockCollect.GoodFile(seg, p, f) && k < n <= f.finfo.nblocks
    ensures BlockCollect.FileBlocks(seg, p, f, n)[k] == BlockCollect.BlockAt(seg, p, f, k)
  {
    hide BlockCollect.GoodFile, BlockCollect.BlockAt;
    if k < n - 1 {
      BlockOfFile(seg, p, f, n - 1, k);
    }
  }

  /** The block iterator yields every block of the file with the numbers that mkfs gave it. */
  lemma {:induction false} BlocksReadBack(seg: Segment, buf: seq<Byte>, si: SegmentInfo, seed: bv32, i: nat, k: nat)
    requires si.LaidOut() && Maps(seg, buf, si, seed) && Written(buf, si) && seg.nblocks >= PSEG_MIN_BLOCKS
    requires si.nblocks <= seg.nblocks && i < |si.files| && k < si.files[i].nblocks
    ensures si.bs > 0 && SEGSUM_SIZE <= |seg.addr|
    ensures BlockCollect.GoodFile(seg, TheLog(seg), TheFile(si.bs, si.files, i))
    ensures var blocks := BlockCollect.FileBlocks(seg, TheLog(seg), TheFile(si.bs, si.files, i), si.files[i].nblocks);
            |blocks| == si.files[i].nblocks && blocks[k] == ExpectedBlock(si.files, i, k)
  {
    hide BlockSize, Le, ReadSegsum, Maps, Written, BlockCollect.GoodFile, ReadBinfo, BinfoAt, BinfoFor, FinfoOffset,
      ValidPseg;
    TheFileGood(seg, buf, si, seed, i);
    BlockOfFile(seg, TheLog(seg), TheFile(si.bs, si.files, i), si.files[i].nblocks, k);
    BlockRead(seg, buf, si, seed, i, k);
  }

  lemma {:induction false} BlockRead(seg: Segment, buf: seq<Byte>, si: SegmentInfo, seed: bv32, i: nat, k: nat)
    requires si.LaidOut() && Maps(seg, buf, si, seed) && Written(buf, si) && seg.nblocks >= PSEG_MIN_BLOCKS
    requires si.nblocks <= seg.nblocks && i < |si.files| && k < si.files[i].nblocks
    ensures seg.bs == si.bs >= 1024 && SEGSUM_SIZE <= |seg.addr|
    ensures var f := si.files[i];
            var at := BinfoAt(si.bs, FinfoOffset(si.bs, si.files, i), IsDat(f), FinfoOf(f), k);
            && at + DataSize(IsDat(f)) <= |seg.addr|
            && ReadBinfo(seg.addr, at, IsDat(f), true) == BinfoFor(f, First(si.files, i), k)
  {
    hide BlockSize, Le, ReadSegsum, ReadFinfo, BlocksEnd, Checksum, BinfoEnd, Place, SegmentInfo.Base, HeaderWritten,
      ReadBinfo, BinfoAt;
    MappedSegment(seg, buf, si, seed);
    SummaryInside(seg, buf, si, seed);
    FitsInLog(si, i);
    var f, start := si.files[i], FinfoOffset(si.bs, si.files, i);
    assert FileInLog(buf, si.Base(), si.bs, si.files, i);
    assert BinfoWritten(buf, si.Base(), si.bs, start, f, First(si.files, i), k);
    WriteOne(si.bs, start, f, k, BinfoEnd(si.bs, start, IsDat(f), FinfoOf(f), f.nblocks), 0);
    BinfoWithinPart(buf, si.Base(), BlocksEnd(si.bs, si.Base(), seg.nblocks),
                    BinfoAt(si.bs, start, IsDat(f), FinfoOf(f), k), IsDat(f));
  }

  // ----- all blocks of the log -----

  /** The blocks of file i, as the reader is to see them. */
  function ExpectedOf(files: seq<FileInfo>, i: nat): (r: seq<BlockCollect.Block>)
    requires i < |files|
    ensures |r| == files[i].nblocks
  {
    seq(files[i].nblocks, k requires 0 <= k < files[i].nblocks => ExpectedBlock(files, i, k))
  }

  /** The blocks of the files from index i on. */
  function ExpectedFrom(files: seq<FileInfo>, i: nat): seq<BlockCollect.Block>
    requires i <= |files|
    decreases |files| - i
  {
    if i == |files| then [] else ExpectedOf(files, i) + ExpectedFrom(files, i + 1)
  }

  lemma {:induction false} FileAsExpected(seg: Segment, buf: seq<Byte>, si: SegmentInfo, seed: bv32, i: nat)
    requires si.LaidOut() && Maps(seg, buf, si, seed) && Written(buf, si) && seg.nblocks >= PSEG_MIN_BLOCKS
    requires si.nblocks <= seg.nblocks && i < |si.files| && si.files[i].nblocks > 0
    ensures si.bs > 0 && SEGSUM_SIZE <= |seg.addr|
    ensures BlockCollect.GoodFile(seg, TheLog(seg), TheFile(si.bs, si.files, i))
    ensures BlockCollect.FileBlocks(seg, TheLog(seg), TheFile(si.bs, si.files, i), si.files[i].nblocks) ==
            ExpectedOf(si.files, i)
  {
    hide SegmentInfo.LaidOut, Maps, Written, BlockCollect.GoodFile, BlockCollect.FileBlocks, ExpectedBlock, FinfoOffset,
      TheLog, ReadSegsum;
    BlocksReadBack(seg, buf, si, seed, i, 0);
    forall k | 0 <= k < si.files[i].nblocks
      ensures BlockCollect.FileBlocks(seg, TheLog(seg), TheFile(si.bs, si.files, i), si.files[i].nblocks)[k] ==
              ExpectedOf(si.files, i)[k]
    {
      BlocksReadBack(seg, buf, si, seed, i, k);
    }
  }

  lemma {:induction false} BlocksFrom(seg: Segment, buf: seq<Byte>, si: SegmentInfo, seed: bv32, i: nat)
    requires si.LaidOut() && Maps(seg, buf, si, seed) && Written(buf, si) && seg.nblocks >= PSEG_MIN_BLOCKS
    requires si.nblocks <= seg.nblocks && i <= |si.files|
    ensures si.bs > 0 && SEGSUM_SIZE <= |seg.addr|
    ensures BlockCollect.AllGood(seg, TheLog(seg), Expected(si.bs, si.files, i))
    ensures BlockCollect.FilesBlocks(seg, TheLog(seg), Expected(si.bs, si.files, i)) == ExpectedFrom(si.files, i)
    decreases |si.files| - i
  {
    hide SegmentInfo.LaidOut, Maps, Written, BlockCollect.GoodFile, BlockCollect.FileBlocks, BlockCollect.FilesBlocks,
      BlockCollect.AllGood,
      FinfoOffset, TheLog, ReadSegsum, ExpectedOf;
    MappedSegment(seg, buf, si, seed);
    var p := TheLog(seg);
    if i == |si.files| {
      BlockCollect.FilesBlocksNil(seg, p);
    } else {
      BlocksFrom(seg, buf, si, seed, i + 1);
      if si.files[i].nblocks > 0 {
        FileAsExpected(seg, buf, si, seed, i);
        GoodCons(seg, p, TheFile(si.bs, si.files, i), Expected(si.bs, si.files, i + 1));
        BlockCollect.FilesBlocksCons(seg, p, TheFile(si.bs, si.files, i), Expected(si.bs, si.files, i + 1));
      }
    }
  }

  lemma {:induction false} GoodCons(seg: Segment, p: Pseg, f: File, files: seq<File>)
    requires BlockCollect.GoodFile(seg, p, f) && BlockCollect.AllGood(seg, p, files)
    ensures BlockCollect.AllGood(seg, p, [f] + files)
  {
    hide BlockCollect.GoodFile;
  }

  /**
   The whole way: the blocks that the collector gets from the segment that mkfs made are exactly the
   blocks of the files that were added, in order, with the numbers that mkfs gave them.
   */
  lemma {:induction false} SegmentReadBack(seg: Segment, buf: seq<Byte>, si: SegmentInfo, seed: bv32,
                                           behind: nat -> Byte)
    requires si.LaidOut() && Maps(seg, buf, si, seed) && Committed(buf, si, seed, behind) &&
             seg.nblocks >= PSEG_MIN_BLOCKS
    requires si.nblocks <= seg.nblocks && SumRight(buf, si, seed, behind)
    ensures ValidSegment(seg) && BlockCollect.SegmentBlocks(seg, si.nblocks) == Wrappers.Some(ExpectedFrom(si.files, 0))
  {
    hide SegmentInfo.LaidOut, Maps, Written, SumRight, BlockCollect.AllGood, BlockCollect.FilesBlocks, ReadSegsum,
      Psegs, Files, ValidPseg, ValidSegment,
      BlockCollect.PsegBlocks, BlockCollect.PsegsBlocks, Expected, ExpectedFrom, TheLog, BlockCollect.AllValid;
    MappedSegment(seg, buf, si, seed);
    OneLog(seg, buf, si, seed, behind);
    FilesReadBack(seg, buf, si, seed);
    BlocksFrom(seg, buf, si, seed, 0);
    var p := TheLog(seg);
    BlockCollect.PsegPlan(seg, p);
    BlockCollect.SegmentPlan(seg, si.nblocks);
    assert [p] + [] == [p];
    BlockCollect.PsegsBlocksCons(seg, p, []);
    BlockCollect.JoinFacts(BlockCollect.PsegBlocks(seg, p), Wrappers.Some([]), Wrappers.None);
  }

  /** When the checksum of its summary is wrong, the collector takes the segment for empty. */
  lemma {:induction false} NothingReadBack(seg: Segment, buf: seq<Byte>, si: SegmentInfo, seed: bv32,
                                           behind: nat -> Byte)
    requires si.LaidOut() && Maps(seg, buf, si, seed) && Committed(buf, si, seed, behind) &&
             seg.nblocks >= PSEG_MIN_BLOCKS
    requires si.nblocks <= seg.nblocks && !SumRight(buf, si, seed, behind)
    ensures ValidSegment(seg) && BlockCollect.SegmentBlocks(seg, si.nblocks) == Wrappers.Some([])
  {
    hide SegmentInfo.LaidOut, Maps, Committed, SumRight, Psegs, ValidSegment, BlockCollect.PsegsBlocks,
      BlockCollect.AllValid;
    NoLog(seg, buf, si, seed, behind);
    BlockCollect.SegmentPlan(seg, si.nblocks);
  }

  // ----- mkfs, then the collector -----

  /** A block size divides a larger one. */
  lemma {:induction false} SizeDivides(a: nat, b: nat)
    requires BlockSize(a) && BlockSize(b)
    ensures b % a == 0 <==> a <= b
  {
    BlockSizeFacts(a);
    BlockSizeFacts(b);
    if a == b {
      DivModUnique(b, a, 1, 0);
    } else if a < b {
      SizeOrder(a, b);
      SizeDivides(a, b / 2);
      assert b == (b / 2) * 2;
      Doubled(b / 2, a);
    } else {
      DivModUnique(b, a, 0, b);
    }
  }

  lemma {:induction false} SizeOrder(a: nat, b: nat)
    requires BlockSize(a) && BlockSize(b) && a < b
    ensures a <= b / 2
  {
    if a > 1024 {
      BlockSizeFacts(a / 2);
      SizeOrder(a / 2, b / 2);
    } else {
      BlockSizeFacts(b / 2);
    }
  }

  lemma {:induction false} Doubled(n: nat, d: nat)
    requires d > 0 && n % d == 0
    ensures (n * 2) % d == 0
  {
    var q := n / d;
    assert n == q * d + n % d;
    Distribute(d, q, q);
    DivModUnique(n * 2, d, 2 * q, 0);
  }

  /**
   A mapping of the first segment starts where the segment starts just when pages are no larger than 4096
   bytes or a block.
   */
  lemma {:induction false} FirstSegmentAligned(bs: nat, pagesize: nat)
    requires BlockSize(bs) && BlockSize(pagesize)
    ensures pagesize > 0 && bs > 0
    ensures PageOffset(true, pagesize, BlockOffset(bs, FirstDataBlock(bs))) == 0 <==>
            pagesize <= DISKHDR_SIZE || pagesize <= bs
  {
    BlockSizeFacts(bs);
    BlockSizeFacts(pagesize);
    SizeFrom(bs);
    var at := BlockOffset(bs, FirstDataBlock(bs));
    if bs > DISKHDR_SIZE {
      OneBlock(DISKHDR_SIZE, bs);
    }
    assert at == if bs > DISKHDR_SIZE then bs else DISKHDR_SIZE;
    assert BlockSize(2048) && BlockSize(4096);
    SizeDivides(pagesize, at);
  }

  ghost predicate PowerOfTwo(n: nat) { n == 1 || (n > 1 && n % 2 == 0 && PowerOfTwo(n / 2)) }

  lemma {:induction false} SegmentSize(bs: nat, perSegment: nat)
    requires BlockSize(bs) && PowerOfTwo(perSegment)
    ensures BlockSize(perSegment * bs)
    decreases perSegment
  {
    BlockSizeFacts(bs);
    if perSegment > 1 {
      SegmentSize(bs, perSegment / 2);
      DoubleSize(perSegment / 2, bs, perSegment / 2 * bs);
      assert perSegment == 2 * (perSegment / 2);
    }
  }

  lemma {:induction false} DoubleSize(p: nat, bs: nat, size: nat)
    requires size == p * bs && BlockSize(size)
    ensures BlockSize(2 * p * bs)
  {
    assert 2 * p * bs == 2 * size by { Distribute(bs, p, p); }
    BlockSizeFacts(size);
  }

  /** A mapping of a later segment starts where the segment starts, unless pages are larger than segments. */
  lemma {:induction false} LaterSegmentsAligned(sb: Superblock, pagesize: nat, segnum: nat)
    requires BlockSize(sb.bs) && BlockSize(pagesize) && PowerOfTwo(sb.perSegment) && segnum > 0
    requires pagesize <= sb.perSegment * sb.bs
    ensures pagesize > 0 && PageOffset(true, pagesize, BlockOffset(sb.bs, SegmentStart(sb, segnum))) == 0
  {
    BlockSizeFacts(pagesize);
    SegmentSize(sb.bs, sb.perSegment);
    SizeDivides(pagesize, sb.perSegment * sb.bs);
    TimesDivisible(sb.perSegment * sb.bs, pagesize, segnum);
    Rearranged(sb.perSegment, segnum, sb.bs);
  }

  lemma {:induction false} TimesDivisible(n: nat, d: nat, k: nat)
    requires d > 0 && n % d == 0
    ensures n * k >= 0 && (n * k) % d == 0
  {
    MulNat(n, k);
    if k > 0 {
      TimesDivisible(n, d, k - 1);
      Distribute(n, k - 1, 1);
      SumDivisible(n * (k - 1), n, d);
    }
  }

  lemma {:induction false} SumDivisible(a: nat, b: nat, d: nat)
    requires d > 0 && a % d == 0 && b % d == 0
    ensures (a + b) % d == 0
  {
    Distribute(d, a / d, b / d);
    DivModUnique(a + b, d, a / d + b / d, 0);
  }

  lemma {:induction false} Rearranged(a: nat, b: nat, c: nat)
    ensures a * b * c == a * c * b
  {
  }

  /** The first segment of the device is the one that mkfs wrote, when it is shown from its start on. */
  lemma {:induction false} FirstSegmentMaps(seg: Segment, device: seq<Byte>, sb: Superblock, si: SegmentInfo)
    requires sb.bs == si.bs && sb.firstDataBlock == si.startBlocknr && seg.bs == sb.bs && seg.seed == sb.seed
    requires seg.blocknr == SegmentStart(sb, 0) && seg.blocknr + seg.nblocks == SegmentStart(sb, 1)
    requires Shows(seg, device, 0)
    ensures Maps(seg, device, si, sb.seed) && seg.nblocks == sb.perSegment - si.startBlocknr
  {
    Distribute(sb.bs, seg.blocknr, seg.nblocks);
  }

  /** A mapping of the first segment starts where the segment starts, or there is none. */
  ghost predicate ShownFromStart(sb: Superblock, pagesize: int, useMmap: bool) {
    useMmap && pagesize > 0 ==> PageOffset(true, pagesize, BlockOffset(sb.bs, sb.firstDataBlock)) == 0
  }

  // ----- the descriptors of the files, number by number -----

  /**
   Block k of file i: of the first two, the number of the block among the virtual ones, and among those
   of the DAT.
   */
  ghost predicate BlockDescribed(files: seq<FileInfo>, i: nat, k: nat, vs: seq<BlockCollect.Vdesc>,
                                 bs: seq<BlockCollect.Bdesc>)
    requires i < |files|
  {
    var f, v := files[i], Virtuals(files, i);
    if f.ino == DAT_INO then
      var b := Payload(files, i) - v;
      0 <= b && b + k < |bs| && bs[b + k] == BlockCollect.Bdesc(f.ino, f.startBlocknr + k, 0, k, 0)
    else
      && v + k < |vs|
      && vs[v + k] == BlockCollect.Vdesc(f.ino, 1, 1 + v + k, BlockCollect.Period(0, 0), f.startBlocknr + k, k, false)
  }

  /** There is one descriptor for each block of the files, and nothing else. */
  ghost predicate FilesDescribed(files: seq<FileInfo>, vs: seq<BlockCollect.Vdesc>, bs: seq<BlockCollect.Bdesc>) {
    && |vs| == Virtuals(files, |files|) && |bs| == Payload(files, |files|) - Virtuals(files, |files|)
    && forall i, k :: 0 <= i < |files| && 0 <= k < files[i].nblocks ==> BlockDescribed(files, i, k, vs, bs)
  }

  /** The descriptors of the first n blocks of a file. */
  lemma {:induction false} DescsOfFile(files: seq<FileInfo>, i: nat, n: nat)
    requires i < |files| && n <= files[i].nblocks
    ensures var f, blocks := files[i], ExpectedOf(files, i);
            var vs, bs := BlockCollect.VdescsOf(blocks, n), BlockCollect.BdescsOf(blocks, n);
            if IsDat(f) then
              && vs == [] && |bs| == n
              && forall k :: 0 <= k < n ==> bs[k] == BlockCollect.Bdesc(f.ino, f.startBlocknr + k, 0, k, 0)
            else
              && bs == [] && |vs| == n
              && forall k :: 0 <= k < n ==>
                   vs[k] == BlockCollect.Vdesc(f.ino, 1, 1 + Virtuals(files, i) + k, BlockCollect.Period(0, 0),
                                               f.startBlocknr + k, k, false)
  {
    hide Virtuals;
    if n > 0 {
      DescsOfFile(files, i, n - 1);
    }
  }

  lemma {:induction false} ExpectedDescribed(files: seq<FileInfo>, j: nat, vs: seq<BlockCollect.Vdesc>,
                                             bs: seq<BlockCollect.Bdesc>)
    requires j <= |files| && |vs| == Virtuals(files, j) && |bs| == Payload(files, j) - Virtuals(files, j)
    requires forall i, k :: 0 <= i < j && 0 <= k < files[i].nblocks ==> BlockDescribed(files, i, k, vs, bs)
    ensures FilesDescribed(files, vs + BlockCollect.Vdescs(ExpectedFrom(files, j)),
                           bs + BlockCollect.Bdescs(ExpectedFrom(files, j)))
    decreases |files| - j
  {
    hide ExpectedOf, BlockDescribed, BlockCollect.VdescsOf, BlockCollect.BdescsOf;
    var more := ExpectedFrom(files, j);
    if j == |files| {
      BlockCollect.NoDescs();
      assert vs + [] == vs && bs + [] == bs;
    } else {
      var blocks, rest := ExpectedOf(files, j), ExpectedFrom(files, j + 1);
      BlockCollect.DescsConcat(blocks, rest);
      DescsOfFile(files, j, files[j].nblocks);
      var vs', bs' := vs + BlockCollect.Vdescs(blocks), bs + BlockCollect.Bdescs(blocks);
      forall i, k | 0 <= i < j + 1 && 0 <= k < files[i].nblocks ensures BlockDescribed(files, i, k, vs', bs') {
        DescribedStill(files, i, k, vs, bs, j);
      }
      ExpectedDescribed(files, j + 1, vs', bs');
      assert vs' + BlockCollect.Vdescs(rest) == vs + BlockCollect.Vdescs(more);
      assert bs' + BlockCollect.Bdescs(rest) == bs + BlockCollect.Bdescs(more);
    }
  }

  lemma {:induction false} DescribedStill(files: seq<FileInfo>, i: nat, k: nat, vs: seq<BlockCollect.Vdesc>,
                                          bs: seq<BlockCollect.Bdesc>, j: nat)
    requires i <= j < |files| && k < files[i].nblocks
    requires |vs| == Virtuals(files, j) && |bs| == Payload(files, j) - Virtuals(files, j)
    requires i < j ==> BlockDescribed(files, i, k, vs, bs)
    ensures BlockDescribed(files, i, k, vs + BlockCollect.Vdescs(ExpectedOf(files, j)),
                           bs + BlockCollect.Bdescs(ExpectedOf(files, j)))
  {
    hide Virtuals, Payload, ExpectedOf, BlockCollect.VdescsOf, BlockCollect.BdescsOf;
    DescsOfFile(files, j, files[j].nblocks);
  }

  lemma {:induction false} FilesDescribedFrom(files: seq<FileInfo>)
    ensures FilesDescribed(files, BlockCollect.Vdescs(ExpectedFrom(files, 0)),
                           BlockCollect.Bdescs(ExpectedFrom(files, 0)))
  {
    hide ExpectedFrom, BlockCollect.Vdescs, BlockCollect.Bdescs;
    ExpectedDescribed(files, 0, [], []);
    var all := ExpectedFrom(files, 0);
    assert [] + BlockCollect.Vdescs(all) == BlockCollect.Vdescs(all);
    assert [] + BlockCollect.Bdescs(all) == BlockCollect.Bdescs(all);
  }

  /**
   What the collector adds for the first segment: the blocks of the files, if the checksum of the summary
   is right.
   */
  ghost function Collectable(buf: seq<Byte>, si: SegmentInfo, seed: bv32, behind: nat -> Byte): seq<BlockCollect.Block>
    reads si
  {
    if SumRight(buf, si, seed, behind) then ExpectedFrom(si.files, 0) else []
  }

  /**
   The collector on the first segment, after mkfs: when the log ends within the segment, and the
   segment is shown from its start on, it gets exactly the descriptors of the files; but none at all
   when the checksum of the summary is not right.
   */
  method CollectFirst(disk: array<Byte>, sb: Superblock, pagesize: int, useMmap: bool, si: SegmentInfo,
                      ghost behind: nat -> Byte, vdescv: Vector<BlockCollect.Vdesc>, bdescv: Vector<BlockCollect.Bdesc>)
    returns (ok: bool)
    requires BlockSize(sb.bs) && sb.bs >= 1024 && sb.nsegments * sb.perSegment * sb.bs <= disk.Length
    requires sb.firstDataBlock + PSEG_MIN_BLOCKS <= sb.perSegment
    requires si.LaidOut() && si.bs == sb.bs && si.startBlocknr == sb.firstDataBlock &&
             Committed(disk[..], si, sb.seed, behind)
    requires vdescv.Valid() && bdescv.Valid() && (disk as object) !in {vdescv.data, bdescv.data}
    modifies vdescv, vdescv.data, bdescv, bdescv.data
    ensures vdescv.Valid() && bdescv.Valid()
    ensures ok && sb.firstDataBlock + si.nblocks <= sb.perSegment && ShownFromStart(sb, pagesize, useMmap) ==>
              var blocks := Collectable(disk[..], si, sb.seed, behind);
              && vdescv.Contents() == old(vdescv.Contents()) + BlockCollect.Vdescs(blocks)
              && bdescv.Contents() == old(bdescv.Contents()) + BlockCollect.Bdescs(blocks)
    ensures ok && sb.firstDataBlock + si.nblocks <= sb.perSegment && ShownFromStart(sb, pagesize, useMmap) &&
            SumRight(disk[..], si, sb.seed, behind) ==>
              && old(vdescv.Contents()) <= vdescv.Contents() && old(bdescv.Contents()) <= bdescv.Contents()
              && FilesDescribed(si.files, vdescv.Contents()[old(vdescv.nelems)..],
                                bdescv.Contents()[old(bdescv.nelems)..])
  {
    hide FilesDescribed, SegmentInfo.LaidOut, Committed, Maps, ValidSegment, BlockSize, SegmentStart, ExpectedFrom,
      SumRight, Shows,
      PageOffset, BlockCollect.Vdescs, BlockCollect.Bdescs, BlockCollect.SegmentBlocks;
    ok := false;
    var segment, mapped := GetSegment(disk[..], sb, 0, pagesize, useMmap);
    if segment.None? {
      return;
    }
    if ShownFromStart(sb, pagesize, useMmap) {
      StartOfFirst(sb);
      FirstSegmentMaps(segment.value, disk[..], sb, si);
      if si.nblocks <= segment.value.nblocks {
        if SumRight(disk[..], si, sb.seed, behind) {
          SegmentReadBack(segment.value, disk[..], si, sb.seed, behind);
        } else {
          NothingReadBack(segment.value, disk[..], si, sb.seed, behind);
        }
      }
    }
    ok := BlockCollect.AccBlocksSegment(segment.value, si.nblocks, vdescv, bdescv);
    FilesDescribedFrom(si.files);
  }

  lemma {:induction false} StartOfFirst(sb: Superblock)
    ensures SegmentStart(sb, 0) == sb.firstDataBlock
  {
  }

  /** mkfs on any files, then the collector. */
  method MakeThenCollect(disk: array<Byte>, sb: Superblock, wanted: seq<FileInfo>, seqnum: nat, ctime: nat, next: nat,
                         behind: nat -> Byte, pagesize: int, useMmap: bool,
                         vdescv: Vector<BlockCollect.Vdesc>, bdescv: Vector<BlockCollect.Bdesc>)
    returns (si: SegmentInfo?, ok: bool)
    requires BlockSize(sb.bs) && 1024 <= sb.bs < LIMIT32 && sb.perSegment < LIMIT32
    requires sb.firstDataBlock + PSEG_MIN_BLOCKS <= sb.perSegment
    requires BlocksEnd(sb.bs, 0, 2 * sb.perSegment) <= disk.Length &&
             sb.nsegments * sb.perSegment * sb.bs <= disk.Length
    requires seqnum < LIMIT64 && ctime < LIMIT64 && next < LIMIT64
    requires forall i :: 0 <= i < |wanted| ==> wanted[i].ino != DAT_INO
    requires vdescv.Valid() && bdescv.Valid() && (disk as object) !in {vdescv.data, bdescv.data}
    modifies disk, vdescv, vdescv.data, bdescv, bdescv.data
    ensures vdescv.Valid() && bdescv.Valid()
    ensures ok ==> si != null && SameFiles(si.files, WithDat(sb.bs, wanted))
    ensures ok && si.sumbytes <= sb.bs ==> SumRight(disk[..], si, sb.seed, behind)
    ensures ok && sb.firstDataBlock + si.nblocks <= sb.perSegment && ShownFromStart(sb, pagesize, useMmap) ==>
              var blocks := Collectable(disk[..], si, sb.seed, behind);
              && vdescv.Contents() == old(vdescv.Contents()) + BlockCollect.Vdescs(blocks)
              && bdescv.Contents() == old(bdescv.Contents()) + BlockCollect.Bdescs(blocks)
    ensures ok ==> si.LaidOut() && si.bs == sb.bs && si.startBlocknr == sb.firstDataBlock
    ensures ok && sb.firstDataBlock + si.nblocks <= sb.perSegment && ShownFromStart(sb, pagesize, useMmap) &&
            si.sumbytes <= sb.bs ==>
              && old(vdescv.Contents()) <= vdescv.Contents() && old(bdescv.Contents()) <= bdescv.Contents()
              && FilesDescribed(si.files, vdescv.Contents()[old(vdescv.nelems)..],
                                bdescv.Contents()[old(bdescv.nelems)..])
  {
    hide FilesDescribed, SegmentInfo.LaidOut, Committed, BlockSize, BlocksEnd, SameFiles, ExpectedFrom, WithDat,
      SumRight, Collectable,
      ShownFromStart, BlockCollect.Vdescs, BlockCollect.Bdescs, Acceptable, DatFits, Mappable, Numbered, Bmap, First;
    ok := false;
    var made, dat, bmaps;
    made, si, dat, bmaps :=
      MakeFilesystem(disk, sb.bs, sb.firstDataBlock, sb.perSegment, wanted, sb.seed, seqnum, ctime, next, behind);
    if made {
      SumRightIfShort(disk[..], si, sb.seed, behind);
      ok := CollectFirst(disk, sb, pagesize, useMmap, si, behind, vdescv, bdescv);
    }
  }

  lemma {:induction false} SumRightIfShort(buf: seq<Byte>, si: SegmentInfo, seed: bv32, behind: nat -> Byte)
    requires si.LaidOut() && Committed(buf, si, seed, behind)
    ensures si.sumbytes <= si.bs ==> SumRight(buf, si, seed, behind)
  {
    hide SegmentInfo.LaidOut, SumRight, Written;
    SummaryFits(si);
    SumRightIff(buf, si, seed);
  }

  /**
   mkfs on its own files, then the collector, which gets exactly the descriptors of these files if it
   reads the segment, or maps it with pages that are no larger than 4096 bytes or a block.
   */
  method MakeInitialThenCollect(disk: array<Byte>, sb: Superblock, seqnum: nat, ctime: nat, next: nat,
                                behind: nat -> Byte, pagesize: nat, useMmap: bool,
                                vdescv: Vector<BlockCollect.Vdesc>, bdescv: Vector<BlockCollect.Bdesc>)
    returns (si: SegmentInfo, ok: bool)
    requires BlockSize(sb.bs) && 1024 <= sb.bs < LIMIT32 && SEG_MIN_BLOCKS <= sb.perSegment < LIMIT32
    requires sb.firstDataBlock == FirstDataBlock(sb.bs) && BlockSize(pagesize)
    requires BlocksEnd(sb.bs, 0, 2 * sb.perSegment) <= disk.Length &&
             sb.nsegments * sb.perSegment * sb.bs <= disk.Length
    requires seqnum < LIMIT64 && ctime < LIMIT64 && next < LIMIT64
    requires vdescv.Valid() && bdescv.Valid() && (disk as object) !in {vdescv.data, bdescv.data}
    modifies disk, vdescv, vdescv.data, bdescv, bdescv.data
    ensures vdescv.Valid() && bdescv.Valid()
    ensures si.LaidOut() && si.bs == sb.bs && SameFiles(si.files, WithDat(sb.bs, InitialFiles(sb.bs)))
    ensures Committed(disk[..], si, sb.seed, behind)
    ensures ok && (!useMmap || pagesize <= DISKHDR_SIZE || pagesize <= sb.bs) ==>
              && vdescv.Contents() == old(vdescv.Contents()) + BlockCollect.Vdescs(ExpectedFrom(si.files, 0))
              && bdescv.Contents() == old(bdescv.Contents()) + BlockCollect.Bdescs(ExpectedFrom(si.files, 0))
    ensures ok && (!useMmap || pagesize <= DISKHDR_SIZE || pagesize <= sb.bs) ==>
              && old(vdescv.Contents()) <= vdescv.Contents() && old(bdescv.Contents()) <= bdescv.Contents()
              && FilesDescribed(si.files, vdescv.Contents()[old(vdescv.nelems)..],
                                bdescv.Contents()[old(bdescv.nelems)..])
  {
    hide FilesDescribed, SegmentInfo.LaidOut, Committed, BlockSize, BlocksEnd, SameFiles, ExpectedFrom, WithDat,
      InitialFiles,
      FirstDataBlock,
      SumRight, PageOffset, BlockCollect.Vdescs, BlockCollect.Bdescs, Numbered, Bmap, First;
    FirstSegmentAligned(sb.bs, pagesize);
    var dat, bmaps;
    si, dat, bmaps := MakeInitial(disk, sb.bs, sb.perSegment, sb.seed, seqnum, ctime, next, behind);
    SumRightIfShort(disk[..], si, sb.seed, behind);
    ok := CollectFirst(disk, sb, pagesize, useMmap, si, behind, vdescv, bdescv);
  }

  // ----- virtual block numbers -----

  /** Every virtual number that the reader sees resolves, through the DAT, to the block it stands for. */
  lemma {:induction false} NumbersResolve(entries: seq<DatEntry>, files: seq<FileInfo>, cno: nat, i: nat, k: nat)
    requires Numbered(entries, files, cno, |files|) && i < |files| && k < files[i].nblocks
    ensures var b := ExpectedBlock(files, i, k);
            b.binfo.Virtual? ==>
              b.binfo.vblocknr < |entries| && entries[b.binfo.vblocknr] == DatEntry(b.blocknr, cno, CNO_MAX)
  {
    if !IsDat(files[i]) {
      assert Resolves(entries, files[i], cno, First(files, i), files[i].nblocks);
    }
  }

  /** No two blocks have the same virtual number. */
  lemma {:induction false} NumbersDistinct(files: seq<FileInfo>, i: nat, k: nat, j: nat, l: nat)
    requires i < |files| && k < files[i].nblocks && j < |files| && l < files[j].nblocks
    ensures var a, b := ExpectedBlock(files, i, k), ExpectedBlock(files, j, l);
            a.binfo.Virtual? && b.binfo.Virtual? && a.binfo.vblocknr == b.binfo.vblocknr ==> i == j && k == l
  {
    hide Virtuals, SummaryEnd, Payload, NonEmpty;
    VirtualsStep(files, i);
    VirtualsStep(files, j);
    if i < j {
      LayoutMonotone(1, files, i + 1, j);
    } else if j < i {
      LayoutMonotone(1, files, j + 1, i);
    }
  }
}
