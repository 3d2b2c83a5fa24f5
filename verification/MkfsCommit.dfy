/** Committing the initial segment: its header, the records of its files, and its checksums. */
module MkfsCommit {
  import opened Arithmetic
  import opened Layout
  import opened Bytes
  import opened SegmentFormat
  import opened MkfsLayout
  import opened MkfsWriter
  import opened Bitmaps
  import Crc32
  import SegmentReader

  const SEGSUM_FLAGS: nat := 0x0B    // NILFS_SS_LOGBGN | NILFS_SS_LOGEND | NILFS_SS_SR
  const SR_BYTES: nat := 400         // NILFS_SR_BYTES for inodes of 128 bytes

  // ----- the header -----

  /** The header of the log, apart from its checksum. */
  ghost predicate HeaderWritten(buf: seq<Byte>, base: nat, nblocks: nat, nfinfo: nat, sumbytes: nat) {
    && base + SEGSUM_SIZE <= |buf|
    && var h := ReadSegsum(buf, base);
       h == Segsum(h.sumsum, SEGSUM_MAGIC, SEGSUM_SIZE, nblocks, nfinfo, sumbytes)
  }

  /** What else the header tells: flags, sequence number, time, the next segment, and the checkpoint. */
  ghost predicate HeaderTells(buf: seq<Byte>, base: nat, seqnum: nat, ctime: nat, next: nat, cno: nat) {
    && base + SEGSUM_SIZE <= |buf|
    && Le(buf, base + 14, 2) == SEGSUM_FLAGS && Le(buf, base + 16, 8) == seqnum && Le(buf, base + 24, 8) == ctime
    && Le(buf, base + 32, 8) == next && Le(buf, base + 56, 8) == cno
  }

  lemma {:induction false} TellsKept(a: seq<Byte>, b: seq<Byte>, base: nat, seqnum: nat, ctime: nat, next: nat,
                                     cno: nat)
    requires HeaderTells(a, base, seqnum, ctime, next, cno) && |a| == |b|
    requires forall i :: base + 14 <= i < base + 40 || base + 56 <= i < base + 64 ==> a[i] == b[i]
    ensures HeaderTells(b, base, seqnum, ctime, next, cno)
  {
    hide Le;
    LeSame(a, b, base + 14, 2);
    LeSame(a, b, base + 16, 8);
    LeSame(a, b, base + 24, 8);
    LeSame(a, b, base + 32, 8);
    LeSame(a, b, base + 56, 8);
  }

  lemma {:induction false} HeaderKept(a: seq<Byte>, b: seq<Byte>, base: nat, nblocks: nat, nfinfo: nat, sumbytes: nat)
    requires HeaderWritten(a, base, nblocks, nfinfo, sumbytes) && |a| == |b|
    requires forall i :: base + 8 <= i < base + SEGSUM_SIZE ==> a[i] == b[i]
    ensures HeaderWritten(b, base, nblocks, nfinfo, sumbytes)
  {
    LeSame(a, b, base + 8, 4);
    LeSame(a, b, base + 12, 2);
    LeSame(a, b, base + 40, 4);
    LeSame(a, b, base + 44, 4);
    LeSame(a, b, base + 48, 4);
  }

  /** What prepare_segment stores in the summary. */
  method PrepareSegment(disk: array<Byte>, si: SegmentInfo, seqnum: nat, ctime: nat, next: nat, cno: nat)
    requires si.Base() + SEGSUM_SIZE <= disk.Length
    requires seqnum < LIMIT64 && ctime < LIMIT64 && next < LIMIT64 && cno < LIMIT64
    requires si.nblocks < LIMIT32 && si.nfinfo < LIMIT32 && si.sumbytes < LIMIT32
    modifies disk
    ensures HeaderWritten(disk[..], si.Base(), si.nblocks, si.nfinfo, si.sumbytes)
    ensures HeaderTells(disk[..], si.Base(), seqnum, ctime, next, cno)
    ensures SameOutside(old(disk[..]), disk[..], si.Base(), si.Base() + SEGSUM_SIZE)
  {
    hide PutLe, Le, HeaderTells;
    var base := si.Base();
    StoreTells(disk, base, seqnum, ctime, next, cno);
    ghost var told := disk[..];
    StoreCounts(disk, base, si.nblocks, si.nfinfo, si.sumbytes);
    TellsKept(told, disk[..], base, seqnum, ctime, next, cno);
  }

  method StoreTells(disk: array<Byte>, base: nat, seqnum: nat, ctime: nat, next: nat, cno: nat)
    requires base + SEGSUM_SIZE <= disk.Length
    requires seqnum < LIMIT64 && ctime < LIMIT64 && next < LIMIT64 && cno < LIMIT64
    modifies disk
    ensures HeaderTells(disk[..], base, seqnum, ctime, next, cno)
    ensures SameOutside(old(disk[..]), disk[..], base, base + SEGSUM_SIZE)
  {
    hide PutLe, Le, Pow256;
    Limits();
    ghost var s0 := disk[..];
    StoreLe(disk, base + 14, 2, SEGSUM_FLAGS);
    ghost var s1 := disk[..];
    StoreLe(disk, base + 16, 8, seqnum);
    ghost var s2 := disk[..];
    StoreLe(disk, base + 24, 8, ctime);
    ghost var s3 := disk[..];
    StoreLe(disk, base + 32, 8, next);
    ghost var s4 := disk[..];
    StoreLe(disk, base + 56, 8, cno);
    LePut(s0, base + 14, 2, SEGSUM_FLAGS);
    LePut(s1, base + 16, 8, seqnum);
    LePut(s2, base + 24, 8, ctime);
    LePut(s3, base + 32, 8, next);
    LePut(s4, base + 56, 8, cno);
    LeSame(s1, disk[..], base + 14, 2);
    LeSame(s2, disk[..], base + 16, 8);
    LeSame(s3, disk[..], base + 24, 8);
    LeSame(s4, disk[..], base + 32, 8);
  }

  method StoreCounts(disk: array<Byte>, base: nat, nblocks: nat, nfinfo: nat, sumbytes: nat)
    requires base + SEGSUM_SIZE <= disk.Length
    requires nblocks < LIMIT32 && nfinfo < LIMIT32 && sumbytes < LIMIT32
    modifies disk
    ensures HeaderWritten(disk[..], base, nblocks, nfinfo, sumbytes)
    ensures SameOutside(old(disk[..]), disk[..], base, base + SEGSUM_SIZE)
    ensures forall i :: base + 14 <= i < base + 40 || base + 56 <= i < base + 64 ==> disk[i] == old(disk[i])
  {
    hide PutLe, Le, Pow256;
    Limits();
    ghost var s0 := disk[..];
    StoreLe(disk, base + 8, 4, SEGSUM_MAGIC);
    ghost var s1 := disk[..];
    StoreLe(disk, base + 12, 2, SEGSUM_SIZE);
    ghost var s2 := disk[..];
    StoreLe(disk, base + 40, 4, nblocks);
    ghost var s3 := disk[..];
    StoreLe(disk, base + 44, 4, nfinfo);
    ghost var s4 := disk[..];
    StoreLe(disk, base + 48, 4, sumbytes);
    LePut(s0, base + 8, 4, SEGSUM_MAGIC);
    LePut(s1, base + 12, 2, SEGSUM_SIZE);
    LePut(s2, base + 40, 4, nblocks);
    LePut(s3, base + 44, 4, nfinfo);
    LePut(s4, base + 48, 4, sumbytes);
    LeSame(s1, disk[..], base + 8, 4);
    LeSame(s2, disk[..], base + 12, 2);
    LeSame(s3, disk[..], base + 40, 4);
    LeSame(s4, disk[..], base + 44, 4);
  }

  // ----- the files -----

  /** The first virtual block number of file i: numbers are given in order, from 1 on. */
  function First(files: seq<FileInfo>, i: nat): nat
    requires i < |files|
  {
    if IsDat(files[i]) then 0 else 1 + Virtuals(files, i)
  }

  ghost predicate FileInLog(buf: seq<Byte>, base: nat, bs: nat, files: seq<FileInfo>, i: nat)
    requires bs >= 1024 && i < |files|
  {
    FileWritten(buf, base, bs, FinfoOffset(bs, files, i), files[i], First(files, i), files[i].nblocks)
  }

  /** The records of the first n files are on the disk. */
  ghost predicate LogWritten(buf: seq<Byte>, base: nat, bs: nat, files: seq<FileInfo>, n: nat)
    requires bs >= 1024 && n <= |files|
  {
    forall i :: 0 <= i < n && files[i].nblocks > 0 ==> FileInLog(buf, base, bs, files, i)
  }

  /** The virtual block numbers of the first n files resolve to their blocks. */
  ghost predicate Numbered(entries: seq<DatEntry>, files: seq<FileInfo>, cno: nat, n: nat)
    requires n <= |files|
  {
    forall i :: 0 <= i < n && !IsDat(files[i]) ==> Resolves(entries, files[i], cno, First(files, i), files[i].nblocks)
  }

  lemma {:induction false} LayoutMonotone(bs: nat, files: seq<FileInfo>, i: nat, j: nat)
    requires bs > 0 && i <= j <= |files|
    ensures SummaryEnd(bs, files, i) <= SummaryEnd(bs, files, j)
    ensures Virtuals(files, i) <= Virtuals(files, j) && Payload(files, i) <= Payload(files, j)
    ensures NonEmpty(files, i) <= NonEmpty(files, j)
    decreases j
  {
    if i < j {
      LayoutMonotone(bs, files, i, j - 1);
    }
  }

  /** What the step for file n writes leaves the earlier files as they are, and adds the file. */
  lemma {:induction false} LogStep(a: seq<Byte>, b: seq<Byte>, base: nat, bs: nat, files: seq<FileInfo>, n: nat)
    requires bs >= 1024 && n < |files| && files[n].nblocks > 0
    requires LogWritten(a, base, bs, files, n)
    requires SameOutside(a, b, base + SummaryEnd(bs, files, n), base + SummaryEnd(bs, files, n + 1))
    requires FileInLog(b, base, bs, files, n)
    ensures LogWritten(b, base, bs, files, n + 1)
  {
    hide FileWritten, BinfoEnd, Place;
    forall i | 0 <= i < n && files[i].nblocks > 0 ensures FileInLog(b, base, bs, files, i) {
      assert FileInLog(a, base, bs, files, i);
      LayoutMonotone(bs, files, i + 1, n);
      FileKept(a, b, base, bs, FinfoOffset(bs, files, i), files[i], First(files, i), files[i].nblocks,
               base + SummaryEnd(bs, files, n), base + SummaryEnd(bs, files, n + 1));
    }
  }

  lemma {:induction false} NumberedStep(a: seq<DatEntry>, b: seq<DatEntry>, files: seq<FileInfo>, cno: nat, n: nat)
    requires n < |files| && Numbered(a, files, cno, n)
    requires EntriesKept(a, b, 1 + Virtuals(files, n))
    requires !IsDat(files[n]) ==> Resolves(b, files[n], cno, First(files, n), files[n].nblocks)
    ensures Numbered(b, files, cno, n + 1)
  {
    hide Resolves, EntriesKept, SummaryEnd, Payload, NonEmpty, Virtuals;
    forall i | 0 <= i < n && !IsDat(files[i]) ensures Resolves(b, files[i], cno, First(files, i), files[i].nblocks) {
      VirtualsStep(files, i);
      LayoutMonotone(1, files, i + 1, n);
      ResolvesKept(a, b, files[i], cno, First(files, i), files[i].nblocks, 1 + Virtuals(files, n));
    }
  }

  lemma {:induction false} ResolvesKept(a: seq<DatEntry>, b: seq<DatEntry>, f: FileInfo, cno: nat, first: nat, i: nat,
                                        n: nat)
    requires Resolves(a, f, cno, first, i) && EntriesKept(a, b, n) && first + i <= n
    ensures Resolves(b, f, cno, first, i)
  {
  }

  /** Every file has an inode of the first ones, and entries for all its blocks in it. */
  ghost predicate AllMapped(files: seq<FileInfo>) {
    forall i :: 0 <= i < |files| ==> files[i].ino < MAX_INITIAL_INO && files[i].nblocks <= MAX_BMAP_ROOT_PTRS
  }

  /** The loop of commit_segment; it stops when the DAT is full. */
  method UpdateFiles(disk: array<Byte>, dat: Dat, si: SegmentInfo)
    returns (bmaps: seq<seq<nat>>, sumOffset: nat, ok: bool)
    requires si.LaidOut() && si.bs < LIMIT32 && si.nblocks < LIMIT32 && AllMapped(si.files)
    requires dat.Valid() && dat.group.blocksize == si.bs && dat.vblocknr == 1 && Apart(disk, dat)
    requires si.Base() + si.sumbytes <= disk.Length
    modifies disk, dat, dat.group, dat.group.bitmap, dat.entries
    ensures ok <==> si.nvblocknrs == 0 || HasRoom(dat, 1, si.nvblocknrs)
    ensures ok ==> sumOffset == si.sumbytes
    ensures ok ==> LogWritten(disk[..], si.Base(), si.bs, si.files, |si.files|)
    ensures ok ==> SameOutside(old(disk[..]), disk[..], si.Base() + SEGSUM_SIZE, si.Base() + si.sumbytes)
    ensures ok ==> |bmaps| == |si.files| &&
                   forall i :: 0 <= i < |bmaps| ==>
                     bmaps[i] == Bmap(si.files[i], First(si.files, i), si.files[i].nblocks)
    ensures ok ==> dat.Valid() && dat.vblocknr == 1 + si.nvblocknrs && Numbered(dat.entries[..], si.files, dat.cno,
        |si.files|)
  {
    hide SegmentInfo.LaidOut, Virtuals, First, SummaryEnd, FileWritten, Resolves, Bmap, SameOutside, EntriesKept,
      Dat.Valid, BlockSize,
      Place, BinfoEnd, LogWritten, Numbered, SegmentInfo.Base;
    var files, bs := si.files, si.bs;
    ghost var base: nat := si.Base();
    sumOffset, bmaps := SEGSUM_SIZE, [];
    var i := 0;
    ghost var start := disk[..];
    LaidOutCounts(si);
    StartFiles(disk[..], dat.entries[..], base, bs, files, dat.cno);
    while i < |files|
      invariant i <= |files| && si.files == files && |bmaps| == i && si.LaidOut()
      invariant dat.Valid() && dat.vblocknr == 1 + Virtuals(files, i)
      invariant Virtuals(files, i) > 0 ==> HasRoom(dat, 1, Virtuals(files, i))
      invariant sumOffset == SummaryEnd(bs, files, i) >= SEGSUM_SIZE
      invariant LogWritten(disk[..], base, bs, files, i)
      invariant SameOutside(start, disk[..], base + SEGSUM_SIZE, base + sumOffset)
      invariant forall k :: 0 <= k < i ==> bmaps[k] == Bmap(files[k], First(files, k), files[k].nblocks)
      invariant Numbered(dat.entries[..], files, dat.cno, i)
    {
      var bmap;
      sumOffset, bmap, ok := UpdateNext(disk, dat, si, i, sumOffset, start);
      VirtualsStep(files, i);
      LayoutMonotone(bs, files, i + 1, |files|);
      if !ok {
        return;
      }
      bmaps := bmaps + [bmap];
      i := i + 1;
    }
    ok := true;
  }

  lemma {:induction false} LaidOutCounts(si: SegmentInfo)
    requires si.LaidOut()
    ensures si.sumbytes == SummaryEnd(si.bs, si.files, |si.files|) && si.nvblocknrs == Virtuals(si.files, |si.files|)
    ensures si.bs >= 1024
  {
  }

  lemma {:induction false} StartFiles(buf: seq<Byte>, entries: seq<DatEntry>, base: nat, bs: nat, files: seq<FileInfo>,
                                      cno: nat)
    requires bs >= 1024
    ensures LogWritten(buf, base, bs, files, 0) && Numbered(entries, files, cno, 0) &&
            SummaryEnd(bs, files, 0) == SEGSUM_SIZE && Virtuals(files, 0) == 0
    ensures SameOutside(buf, buf, base + SEGSUM_SIZE, base + SEGSUM_SIZE)
  {
  }

  lemma {:induction false} VirtualsStep(files: seq<FileInfo>, i: nat)
    requires i < |files|
    ensures Virtuals(files, i + 1) == Virtuals(files, i) + Needs(files[i])
  {
  }

  /** One call of update_blocknr. */
  method UpdateNext(disk: array<Byte>, dat: Dat, si: SegmentInfo, i: nat, sumOffset0: nat, ghost start: seq<Byte>)
    returns (sumOffset: nat, bmap: seq<nat>, ok: bool)
    requires si.LaidOut() && si.bs < LIMIT32 && si.nblocks < LIMIT32 && i < |si.files| && AllMapped(si.files)
    requires dat.Valid() && dat.group.blocksize == si.bs && Apart(disk, dat)
    requires dat.vblocknr == 1 + Virtuals(si.files, i) && sumOffset0 == SummaryEnd(si.bs, si.files, i)
    requires si.Base() + si.sumbytes <= disk.Length
    requires LogWritten(disk[..], si.Base(), si.bs, si.files, i) && Numbered(dat.entries[..], si.files, dat.cno, i)
    requires SameOutside(start, disk[..], si.Base() + SEGSUM_SIZE, si.Base() + sumOffset0)
    modifies disk, dat, dat.group, dat.group.bitmap, dat.entries
    ensures ok <==> Needs(si.files[i]) == 0 || HasRoom(dat, old(dat.vblocknr), Needs(si.files[i]))
    ensures ok ==> sumOffset == SummaryEnd(si.bs, si.files, i + 1) >= sumOffset0
    ensures ok ==> LogWritten(disk[..], si.Base(), si.bs, si.files, i + 1)
    ensures ok ==> SameOutside(start, disk[..], si.Base() + SEGSUM_SIZE, si.Base() + sumOffset)
    ensures ok ==> bmap == Bmap(si.files[i], First(si.files, i), si.files[i].nblocks)
    ensures ok ==> dat.Valid() && dat.vblocknr == 1 + Virtuals(si.files, i + 1)
    ensures ok ==> Numbered(dat.entries[..], si.files, dat.cno, i + 1)
  {
    hide FileWritten, Resolves, Bmap, SameOutside, EntriesKept, Dat.Valid, BlockSize, Place, BinfoEnd, LogWritten,
      SummaryEnd, Numbered,
      Virtuals, Payload, NonEmpty, SegmentInfo.Base;
    var f := si.files[i];
    VirtualsStep(si.files, i);
    BaseIs(si);
    FitsInLog(si, i);
    ghost var before, entries := disk[..], dat.entries[..];
    sumOffset, bmap, ok := UpdateBlocknr(disk, dat, si.bs, si.startBlocknr, f, sumOffset0);
    if ok {
      NumberedStep(entries, dat.entries[..], si.files, dat.cno, i);
      if IsDat(f) {
        DatBmap(f, 0, dat.vblocknr, f.nblocks);
      }
      if f.nblocks > 0 {
        LogStep(before, disk[..], si.Base(), si.bs, si.files, i);
      } else {
        EmptyStep(disk[..], si.Base(), si.bs, si.files, i);
      }
      SameOutsideGrows(start, before, disk[..], si.Base() + SEGSUM_SIZE, si.Base() + sumOffset0, si.Base() + sumOffset);
    }
  }

  lemma {:induction false} BaseIs(si: SegmentInfo)
    ensures si.Base() == si.startBlocknr * si.bs
  {
  }

  lemma {:induction false} FitsInLog(si: SegmentInfo, i: nat)
    requires si.LaidOut() && i < |si.files|
    ensures si.files[i].nblocks <= si.nblocks
    ensures SummaryEnd(si.bs, si.files, i) <= SummaryEnd(si.bs, si.files, i + 1) <= si.sumbytes
    ensures SummaryEnd(si.bs, si.files, i + 1) ==
            if si.files[i].nblocks == 0 then SummaryEnd(si.bs, si.files, i)
            else BinfoEnd(si.bs, Place(si.bs, SummaryEnd(si.bs, si.files, i), FINFO_SIZE), IsDat(si.files[i]),
                          FinfoOf(si.files[i]), si.files[i].nblocks)
  {
    hide BinfoEnd, Place, BlockSize;
    LayoutMonotone(si.bs, si.files, i + 1, |si.files|);
    LayoutMonotone(si.bs, si.files, i, i + 1);
    LayoutMonotone(si.bs, si.files, 0, i);
  }

  lemma {:induction false} EmptyStep(buf: seq<Byte>, base: nat, bs: nat, files: seq<FileInfo>, n: nat)
    requires bs >= 1024 && n < |files| && files[n].nblocks == 0 && LogWritten(buf, base, bs, files, n)
    ensures LogWritten(buf, base, bs, files, n + 1)
    ensures SameOutside(buf, buf, base + SummaryEnd(bs, files, n), base + SummaryEnd(bs, files, n))
  {
  }

  // ----- checksums -----

  /** What fill_in_checksums leaves alone. */
  ghost predicate OnlyChecksums(a: seq<Byte>, b: seq<Byte>, base: nat, sr: nat) {
    |a| == |b| && forall i :: 0 <= i < |a| && !(base <= i < base + 8) && !(sr <= i < sr + 4) ==> a[i] == b[i]
  }

  function BlocksEnd(bs: nat, base: nat, n: nat): nat {
    MulNat(n, bs);
    base + n * bs
  }

  /**
   The bytes that the summary checksum is taken of: they are read from the address of the first block
   on.  Each block is an allocation of its own, so after the first block come the bytes that lie behind
   its allocation, and not those of the second block.
   */
  function SummaryBytes(buf: seq<Byte>, bs: nat, base: nat, sumbytes: nat, behind: nat -> Byte): (bytes: seq<Byte>)
    requires SUMSUM_END <= sumbytes && SUMSUM_END <= bs && base + bs <= |buf|
    ensures |bytes| == sumbytes - SUMSUM_END
  {
    if sumbytes <= bs then buf[base + SUMSUM_END..base + sumbytes]
    else buf[base + SUMSUM_END..base + bs] + seq<Byte>(sumbytes - bs, behind)
  }

  /** The checksum that is taken is that of the summary. */
  ghost predicate Summed(buf: seq<Byte>, bs: nat, base: nat, sumbytes: nat, seed: bv32, behind: nat -> Byte) {
    && SUMSUM_END <= sumbytes && SUMSUM_END <= bs && base + bs <= |buf| && base + sumbytes <= |buf|
    && SegmentReader.ChecksumWord(seed, SummaryBytes(buf, bs, base, sumbytes, behind))
       == SegmentReader.ChecksumWord(seed, buf[base + SUMSUM_END..base + sumbytes])
  }

  /** It is so, whatever lies behind the first block, just when the summary is no longer than a block. */
  lemma {:induction false} SummedIff(buf: seq<Byte>, bs: nat, base: nat, sumbytes: nat, seed: bv32)
    requires SUMSUM_END <= sumbytes && SUMSUM_END <= bs && base + bs <= |buf| && base + sumbytes <= |buf|
    ensures (forall behind: nat -> Byte :: Summed(buf, bs, base, sumbytes, seed, behind)) <==> sumbytes <= bs
  {
    hide SegmentReader.ChecksumWord;
    if sumbytes > bs {
      var behind := Disturbing(buf, base + bs);
      SumDiffers(buf, bs, base, sumbytes, seed, behind);
    }
  }

  /** Bytes like those of the disk from position `at` on, but for the first one. */
  function Disturbing(buf: seq<Byte>, at: nat): nat -> Byte
    requires at < |buf|
  {
    (i: nat) => if i == 0 then (if buf[at] as bv8 == 0 then 1 else 0) else if at + i < |buf| then buf[at + i] else 0
  }

  lemma {:induction false} SumDiffers(buf: seq<Byte>, bs: nat, base: nat, sumbytes: nat, seed: bv32,
                                      behind: nat -> Byte)
    requires SUMSUM_END <= bs < sumbytes && base + sumbytes <= |buf| && behind == Disturbing(buf, base + bs)
    ensures !Summed(buf, bs, base, sumbytes, seed, behind)
  {
    hide Crc32.Bitwise;
    var bytes, summary := SummaryBytes(buf, bs, base, sumbytes, behind), buf[base + SUMSUM_END..base + sumbytes];
    var a, b := SegmentReader.ToBits(bytes), SegmentReader.ToBits(summary);
    var at := bs - SUMSUM_END;
    assert bytes[at] == behind(0) && summary[at] == buf[base + bs];
    assert a[at] != b[at];
    forall i | 0 <= i < |a| && i != at ensures a[i] == b[i] {
      assert bytes[i] == summary[i];
    }
    var head, tail := a[..at], a[at + 1..];
    Crc32.BurstDetected(seed, head, [a[at]], [b[at]], tail);
    assert a == head + [a[at]] + tail && b == head + [b[at]] + tail;
  }

  /** fill_in_checksums: of the summary, of the super root in the last block, and of the whole log. */
  method FillInChecksums(disk: array<Byte>, bs: nat, base: nat, nblocks: nat, sumbytes: nat, seed: bv32,
                         behind: nat -> Byte)
    requires bs >= 1024 && nblocks >= 2 && SEGSUM_SIZE <= sumbytes &&
             base + sumbytes <= BlocksEnd(bs, base, nblocks - 1)
    requires BlocksEnd(bs, base, nblocks) <= disk.Length
    modifies disk
    ensures BlocksEnd(bs, base, nblocks - 1) + bs == BlocksEnd(bs, base, nblocks)
    ensures OnlyChecksums(old(disk[..]), disk[..], base, BlocksEnd(bs, base, nblocks - 1))
    ensures base + bs <= disk.Length &&
            Le(disk[..], base + 4, 4) ==
              SegmentReader.Checksum(seed, SummaryBytes(disk[..], bs, base, sumbytes, behind))
    ensures var sr := BlocksEnd(bs, base, nblocks - 1);
            Le(disk[..], sr, 4) == SegmentReader.Checksum(seed, disk[sr + 4..sr + SR_BYTES])
    ensures Le(disk[..], base, 4) == SegmentReader.Checksum(seed, disk[base + 4..BlocksEnd(bs, base, nblocks)])
  {
    hide Le, BlocksEnd, SummaryBytes, SegmentReader.ChecksumWord, SegmentReader.ToNat;
    BlocksStep(bs, base, nblocks - 1);
    BlocksStep(bs, base, 1);
    BlocksMonotone(bs, base, 1, nblocks - 1);
    var sr := BlocksEnd(bs, base, nblocks - 1);
    var sum := SummaryCrc(disk, bs, base, sumbytes, seed, behind);
    ghost var s0 := disk[..];
    StoreSum(disk, base + 4, SegmentReader.ToNat(sum));
    ghost var s1 := disk[..];
    sum := Crc(seed, disk, sr + 4, sr + SR_BYTES);
    StoreSum(disk, sr, SegmentReader.ToNat(sum));
    ghost var s2 := disk[..];
    LeSame(s1, s2, base + 4, 4);
    SummarySame(s0, s2, bs, base, sumbytes, behind);
    sum := CrcOfBlocks(disk, bs, base, nblocks, seed);
    StoreSum(disk, base, SegmentReader.ToNat(sum));
    LeSame(s2, disk[..], base + 4, 4);
    LeSame(s2, disk[..], sr, 4);
    SummarySame(s2, disk[..], bs, base, sumbytes, behind);
    SliceSame(s1, disk[..], sr + 4, sr + SR_BYTES);
    SliceSame(s2, disk[..], base + 4, BlocksEnd(bs, base, nblocks));
  }

  /** The checksum of the bytes that lie from the address of the first block on. */
  method SummaryCrc(disk: array<Byte>, bs: nat, base: nat, sumbytes: nat, seed: bv32, behind: nat -> Byte)
    returns (sum: bv32)
    requires SUMSUM_END <= sumbytes && SUMSUM_END <= bs && base + bs <= disk.Length
    ensures sum == SegmentReader.ChecksumWord(seed, SummaryBytes(disk[..], bs, base, sumbytes, behind))
  {
    sum := Crc32.Crc32Le(seed, SegmentReader.ToBits(SummaryBytes(disk[..], bs, base, sumbytes, behind)));
  }

  lemma {:induction false} SummarySame(a: seq<Byte>, b: seq<Byte>, bs: nat, base: nat, sumbytes: nat,
                                       behind: nat -> Byte)
    requires SUMSUM_END <= sumbytes && SUMSUM_END <= bs && base + bs <= |a| == |b|
    requires forall i :: base + SUMSUM_END <= i < base + bs ==> a[i] == b[i]
    ensures SummaryBytes(a, bs, base, sumbytes, behind) == SummaryBytes(b, bs, base, sumbytes, behind)
  {
    assert a[base + SUMSUM_END..base + bs] == b[base + SUMSUM_END..base + bs];
  }

  method StoreSum(disk: array<Byte>, at: nat, sum: nat)
    requires sum < LIMIT32 && at + 4 <= disk.Length
    modifies disk
    ensures Le(disk[..], at, 4) == sum
    ensures SameOutside(old(disk[..]), disk[..], at, at + 4)
  {
    Limits();
    LePut(disk[..], at, 4, sum);
    StoreLe(disk, at, 4, sum);
  }

  lemma {:induction false} SliceSame(a: seq<Byte>, b: seq<Byte>, lo: nat, hi: nat)
    requires lo <= hi <= |a| && |a| == |b| && forall i :: lo <= i < hi ==> a[i] == b[i]
    ensures a[lo..hi] == b[lo..hi]
  {
  }

  lemma {:induction false} BlocksStep(bs: nat, base: nat, n: nat)
    ensures BlocksEnd(bs, base, n + 1) == BlocksEnd(bs, base, n) + bs
    ensures BlocksEnd(bs, base, n) >= base && (n == 1 ==> BlocksEnd(bs, base, n) == base + bs)
  {
    MulNat(n, bs);
    Distribute(bs, n, 1);
  }

  /** The checksum of bytes lo to hi of the disk. */
  method Crc(seed: bv32, disk: array<Byte>, lo: nat, hi: nat) returns (sum: bv32)
    requires lo <= hi <= disk.Length
    ensures sum == SegmentReader.ChecksumWord(seed, disk[lo..hi])
  {
    sum := Crc32.Crc32Le(seed, SegmentReader.ToBits(disk[lo..hi]));
  }

  /** The checksum of the log, block by block. */
  method CrcOfBlocks(disk: array<Byte>, bs: nat, base: nat, nblocks: nat, seed: bv32) returns (sum: bv32)
    requires bs >= 1024 && nblocks >= 1 && BlocksEnd(bs, base, nblocks) <= disk.Length
    ensures base + 4 <= BlocksEnd(bs, base, nblocks)
    ensures sum == SegmentReader.ChecksumWord(seed, disk[base + 4..BlocksEnd(bs, base, nblocks)])
  {
    hide BlocksEnd, SegmentReader.ChecksumWord;
    var blocknr, rest := 1, nblocks - 1;
    BlocksStep(bs, base, 1);
    BlocksMonotone(bs, base, 1, nblocks);
    sum := Crc(seed, disk, base + 4, base + bs);
    while rest > 0
      invariant 1 <= blocknr && blocknr + rest == nblocks
      invariant base + bs <= BlocksEnd(bs, base, blocknr) <= disk.Length
      invariant sum == SegmentReader.ChecksumWord(seed, disk[base + 4..BlocksEnd(bs, base, blocknr)])
    {
      BlocksStep(bs, base, blocknr);
      BlocksMonotone(bs, base, blocknr + 1, nblocks);
      var at := BlocksEnd(bs, base, blocknr);
      Concatenation(seed, disk[..], base + 4, at, at + bs, sum);
      sum := Crc(sum, disk, at, at + bs);
      blocknr, rest := blocknr + 1, rest - 1;
    }
  }

  lemma {:induction false} BlocksMonotone(bs: nat, base: nat, m: nat, n: nat)
    requires m <= n
    ensures BlocksEnd(bs, base, m) <= BlocksEnd(bs, base, n)
  {
    MulMonotone(bs, m, n);
  }

  lemma {:induction false} Concatenation(seed: bv32, buf: seq<Byte>, lo: nat, mid: nat, hi: nat, sum: bv32)
    requires lo <= mid <= hi <= |buf|
    requires sum == SegmentReader.ChecksumWord(seed, buf[lo..mid])
    ensures SegmentReader.ChecksumWord(sum, buf[mid..hi]) == SegmentReader.ChecksumWord(seed, buf[lo..hi])
  {
    hide Crc32.Bitwise;
    var a, b := SegmentReader.ToBits(buf[lo..mid]), SegmentReader.ToBits(buf[mid..hi]);
    Crc32.Chaining(seed, a, b, |b|);
    assert a + b == SegmentReader.ToBits(buf[lo..hi]);
  }

  // ----- the committed segment -----

  /** The header and the records of the log are on the disk. */
  ghost predicate Written(buf: seq<Byte>, si: SegmentInfo)
    reads si
    requires si.bs >= 1024
  {
    && HeaderWritten(buf, si.Base(), si.nblocks, si.nfinfo, si.sumbytes)
    && LogWritten(buf, si.Base(), si.bs, si.files, |si.files|)
    && SEGSUM_SIZE <= si.sumbytes && si.Base() + si.sumbytes <= |buf| && si.Base() + si.bs <= |buf|
  }

  /** So is the checksum of what was taken for the summary. */
  ghost predicate Committed(buf: seq<Byte>, si: SegmentInfo, seed: bv32, behind: nat -> Byte)
    reads si
    requires si.bs >= 1024
  {
    && Written(buf, si)
    && Le(buf, si.Base() + 4, 4) ==
       SegmentReader.Checksum(seed, SummaryBytes(buf, si.bs, si.Base(), si.sumbytes, behind))
  }

  /** The checksum of the log is that of everything after it. */
  ghost predicate DataSummed(buf: seq<Byte>, base: nat, end: nat, seed: bv32) {
    base + 4 <= end <= |buf| && Le(buf, base, 4) == SegmentReader.Checksum(seed, buf[base + 4..end])
  }

  /** commit_segment, as far as it concerns the log itself; it stops when the DAT is full. */
  method CommitSegment(disk: array<Byte>, dat: Dat, si: SegmentInfo, seed: bv32, behind: nat -> Byte)
    returns (bmaps: seq<seq<nat>>, ok: bool)
    requires si.LaidOut() && si.bs < LIMIT32 && si.nblocks < LIMIT32 && AllMapped(si.files)
    requires dat.Valid() && dat.group.blocksize == si.bs && dat.vblocknr == 1 && Apart(disk, dat)
    requires BlocksEnd(si.bs, si.Base(), si.nblocks) <= disk.Length
    requires HeaderWritten(disk[..], si.Base(), si.nblocks, si.nfinfo, si.sumbytes)
    modifies disk, dat, dat.group, dat.group.bitmap, dat.entries
    ensures ok <==> si.nvblocknrs == 0 || HasRoom(dat, 1, si.nvblocknrs)
    ensures ok ==> Committed(disk[..], si, seed, behind)
    ensures ok ==> DataSummed(disk[..], si.Base(), BlocksEnd(si.bs, si.Base(), si.nblocks), seed)
    ensures ok ==> forall i :: si.Base() + 8 <= i < si.Base() + SEGSUM_SIZE ==> disk[i] == old(disk[i])
    ensures ok ==> |bmaps| == |si.files| &&
                   forall i :: 0 <= i < |bmaps| ==>
                     bmaps[i] == Bmap(si.files[i], First(si.files, i), si.files[i].nblocks)
    ensures ok ==> dat.Valid() && dat.vblocknr == 1 + si.nvblocknrs && Numbered(dat.entries[..], si.files, dat.cno,
        |si.files|)
  {
    hide Le, Dat.Valid, BlockSize, LogWritten, Numbered, BlocksEnd, Bmap, HeaderWritten, SegmentReader.Checksum,
      SummaryBytes, SegmentInfo.LaidOut, SegmentInfo.Base,
      OnlyChecksums, SameOutside, First;
    SummaryFits(si);
    var sumOffset;
    ghost var s0 := disk[..];
    bmaps, sumOffset, ok := UpdateFiles(disk, dat, si);
    if !ok {
      return;
    }
    ghost var s1 := disk[..];
    FillInChecksums(disk, si.bs, si.Base(), si.nblocks, si.sumbytes, seed, behind);
    ghost var s2 := disk[..];
    ChecksumsKeep(s0, s1, s2, si);
    assert forall i :: si.Base() + 8 <= i < si.Base() + SEGSUM_SIZE ==> disk[i] == s2[i] && old(disk[i]) == s0[i];
  }

  /** The summary ends before the last block of the log, which holds the super root. */
  lemma {:induction false} SummaryFits(si: SegmentInfo)
    requires si.LaidOut()
    ensures si.bs >= 1024 && si.nblocks >= 2 && SEGSUM_SIZE <= si.sumbytes
    ensures si.Base() + si.sumbytes <= BlocksEnd(si.bs, si.Base(), si.nblocks - 1)
            <= BlocksEnd(si.bs, si.Base(), si.nblocks)
  {
    hide SummaryEnd, BlockSize, BlocksEnd, SegmentInfo.Base;
    var n := si.nblkSum;
    LayoutMonotone(si.bs, si.files, 0, |si.files|);
    RoundsUp(si.sumbytes, si.bs);
    StartFiles([], [], 0, si.bs, si.files, 0);
    BlocksMonotone(si.bs, si.Base(), n, si.nblocks - 1);
    BlocksMonotone(si.bs, si.Base(), si.nblocks - 1, si.nblocks);
    CoversBytes(si.bs, si.Base(), si.sumbytes, n);
  }

  lemma {:induction false} RoundsUp(bytes: nat, bs: nat)
    requires bs > 0 && bytes > 0
    ensures (bytes + bs - 1) / bs >= 1 && bytes <= (bytes + bs - 1) / bs * bs
  {
    DivPositive(bytes + bs - 1, bs);
    assert bytes + bs - 1 == (bytes + bs - 1) / bs * bs + (bytes + bs - 1) % bs;
  }

  lemma {:induction false} CoversBytes(bs: nat, base: nat, bytes: nat, n: nat)
    requires bytes <= n * bs
    ensures base + bytes <= BlocksEnd(bs, base, n)
  {
  }

  /** Neither the records nor the checksums touch the rest of the header; the checksums do not touch the records. */
  lemma {:induction false} ChecksumsKeep(s0: seq<Byte>, s1: seq<Byte>, s2: seq<Byte>, si: SegmentInfo)
    requires si.LaidOut()
    requires HeaderWritten(s0, si.Base(), si.nblocks, si.nfinfo, si.sumbytes)
    requires SameOutside(s0, s1, si.Base() + SEGSUM_SIZE, si.Base() + si.sumbytes)
    requires LogWritten(s1, si.Base(), si.bs, si.files, |si.files|)
    requires si.nblocks >= 2 && OnlyChecksums(s1, s2, si.Base(), BlocksEnd(si.bs, si.Base(), si.nblocks - 1))
    ensures HeaderWritten(s2, si.Base(), si.nblocks, si.nfinfo, si.sumbytes)
    ensures LogWritten(s2, si.Base(), si.bs, si.files, |si.files|)
    ensures |s0| == |s2| && forall i :: si.Base() + 8 <= i < si.Base() + SEGSUM_SIZE ==> s0[i] == s2[i]
  {
    hide FileWritten, BinfoEnd, Place, BlockSize, SummaryEnd, BlocksEnd, Le;
    SummaryFits(si);
    HeaderKept(s0, s2, si.Base(), si.nblocks, si.nfinfo, si.sumbytes);
    var base, bs, files := si.Base(), si.bs, si.files;
    forall i | 0 <= i < |files| && files[i].nblocks > 0 ensures FileInLog(s2, base, bs, files, i) {
      assert FileInLog(s1, base, bs, files, i);
      FitsInLog(si, i);
      var at := FinfoOffset(bs, files, i);
      FileAgrees(s1, s2, base, bs, at, files[i], First(files, i), files[i].nblocks);
    }
  }
}
