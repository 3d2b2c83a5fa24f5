/** Writing the summary of the initial segment, and assigning its virtual block numbers. */
module MkfsWriter {
  import opened Arithmetic
  import opened Layout
  import opened Bytes
  import opened SegmentFormat
  import opened MkfsLayout
  import opened Bitmaps

  const LIMIT32: nat := 0x1_0000_0000
  const LIMIT64: nat := 0x1_0000_0000_0000_0000

  lemma {:induction false} Limits()
    ensures Pow256(2) == 0x1_0000 && Pow256(4) == LIMIT32 && Pow256(8) == LIMIT64
  {
    assert Pow256(1) == 256;
    assert Pow256(3) == 0x100_0000;
    assert Pow256(5) == 0x100_0000_0000;
    assert Pow256(6) == 0x1_0000_0000_0000;
    assert Pow256(7) == 0x100_0000_0000_0000;
  }

  /** The two buffers agree outside [lo, hi). */
  ghost predicate SameOutside(a: seq<Byte>, b: seq<Byte>, lo: nat, hi: nat) {
    |a| == |b| && forall i :: 0 <= i < |a| && !(lo <= i < hi) ==> a[i] == b[i]
  }

  /** map_segsum_info: the place of the next record, as an address on the disk, and its end. */
  method MapSegsumInfo(bs: nat, startBlocknr: nat, offset: nat, itemSize: nat) returns (at: nat, end: nat)
    requires bs > 0 && itemSize <= bs
    ensures startBlocknr * bs >= 0
    ensures at == startBlocknr * bs + Place(bs, offset, itemSize)
    ensures end == Place(bs, offset, itemSize) + itemSize
  {
    var blockOffset, offsetInBlock := offset / bs, offset % bs;
    assert offset == blockOffset * bs + offsetInBlock;
    end := offset;
    MulNat(startBlocknr, bs);
    Distribute(bs, blockOffset, 1);
    if itemSize > bs - offsetInBlock {
      offsetInBlock := 0;
      blockOffset := blockOffset + 1;
      MulNat(blockOffset, bs);
      end := blockOffset * bs;
    }
    end := end + itemSize;
    Distribute(bs, startBlocknr, blockOffset);
    MulNat(startBlocknr + blockOffset, bs);
    at := (startBlocknr + blockOffset) * bs + offsetInBlock;
  }

  method StoreFinfo(disk: array<Byte>, at: nat, fi: Finfo)
    requires at + FINFO_SIZE <= disk.Length
    requires fi.ino < LIMIT64 && fi.cno < LIMIT64 && fi.nblocks < LIMIT32 && fi.ndatablk < LIMIT32
    modifies disk
    ensures ReadFinfo(disk[..], at) == fi
    ensures SameOutside(old(disk[..]), disk[..], at, at + FINFO_SIZE)
  {
    hide Le, PutLe, Pow256;
    Limits();
    ghost var s0 := disk[..];
    StoreLe(disk, at, 8, fi.ino);
    ghost var s1 := disk[..];
    StoreLe(disk, at + 16, 4, fi.nblocks);
    ghost var s2 := disk[..];
    StoreLe(disk, at + 20, 4, fi.ndatablk);
    ghost var s3 := disk[..];
    StoreLe(disk, at + 8, 8, fi.cno);
    LePut(s0, at, 8, fi.ino);
    LePut(s1, at + 16, 4, fi.nblocks);
    LePut(s2, at + 20, 4, fi.ndatablk);
    LePut(s3, at + 8, 8, fi.cno);
    LePutOther(s1, at + 16, 4, fi.nblocks, at, 8);
    LePutOther(s2, at + 20, 4, fi.ndatablk, at, 8);
    LePutOther(s3, at + 8, 8, fi.cno, at, 8);
    LePutOther(s2, at + 20, 4, fi.ndatablk, at + 16, 4);
    LePutOther(s3, at + 8, 8, fi.cno, at + 16, 4);
    LePutOther(s3, at + 8, 8, fi.cno, at + 20, 4);
  }

  /** A block offset of the DAT, or a virtual block number and a block offset. */
  method StoreBinfo(disk: array<Byte>, at: nat, b: Binfo)
    requires b.Real? || b.Virtual?
    requires at + (if b.Real? then 8 else 16) <= disk.Length
    requires b.blkoff < LIMIT64 && (b.Virtual? ==> b.vblocknr < LIMIT64)
    modifies disk
    ensures ReadBinfo(disk[..], at, b.Real?, true) == b
    ensures SameOutside(old(disk[..]), disk[..], at, at + (if b.Real? then 8 else 16))
  {
    hide Le, PutLe, Pow256;
    Limits();
    ghost var s0 := disk[..];
    if b.Real? {
      StoreLe(disk, at, 8, b.blkoff);
      LePut(s0, at, 8, b.blkoff);
    } else {
      StoreLe(disk, at, 8, b.vblocknr);
      ghost var s1 := disk[..];
      StoreLe(disk, at + 8, 8, b.blkoff);
      LePut(s0, at, 8, b.vblocknr);
      LePut(s1, at + 8, 8, b.blkoff);
      LePutOther(s1, at + 8, 8, b.blkoff, at, 8);
    }
  }

  // ----- what a written file looks like -----

  /** The binfo of block k of a file whose first virtual number is `first`. */
  function BinfoFor(f: FileInfo, first: nat, k: nat): Binfo {
    if IsDat(f) then Real(k) else Virtual(first + k, k)
  }

  /** The records of a file up to its i-th block are on the disk, its finfo at offset `at` of the log. */
  ghost predicate FileWritten(buf: seq<Byte>, base: nat, bs: nat, at: nat, f: FileInfo, first: nat, i: nat)
    requires bs >= 1024
  {
    && base + BinfoEnd(bs, at, IsDat(f), FinfoOf(f), i) <= |buf|
    && i <= f.nblocks
    && ReadFinfo(buf, base + at) == FinfoOf(f)
    && forall k :: 0 <= k < i ==> BinfoWritten(buf, base, bs, at, f, first, k)
  }

  ghost predicate BinfoWritten(buf: seq<Byte>, base: nat, bs: nat, at: nat, f: FileInfo, first: nat, k: nat)
    requires bs >= 1024
  {
    var place := base + BinfoAt(bs, at, IsDat(f), FinfoOf(f), k);
    place + DataSize(IsDat(f)) <= |buf| && ReadBinfo(buf, place, IsDat(f), true) == BinfoFor(f, first, k)
  }

  /** Later changes leave a written file as it is. */
  lemma {:induction false} FileKept(a: seq<Byte>, b: seq<Byte>, base: nat, bs: nat, at: nat, f: FileInfo, first: nat,
                                    i: nat, lo: nat, hi: nat)
    requires bs >= 1024 && FileWritten(a, base, bs, at, f, first, i)
    requires SameOutside(a, b, lo, hi)
    requires base + BinfoEnd(bs, at, IsDat(f), FinfoOf(f), i) <= lo || hi <= base + at
    ensures FileWritten(b, base, bs, at, f, first, i)
  {
    hide FileWritten, BinfoEnd;
    FileAgrees(a, b, base, bs, at, f, first, i);
  }

  /** A file is in the second buffer too when the two agree on its records. */
  lemma {:induction false} FileAgrees(a: seq<Byte>, b: seq<Byte>, base: nat, bs: nat, at: nat, f: FileInfo, first: nat,
                                      i: nat)
    requires bs >= 1024 && FileWritten(a, base, bs, at, f, first, i) && |a| == |b|
    requires forall k :: base + at <= k < base + BinfoEnd(bs, at, IsDat(f), FinfoOf(f), i) && k < |a| ==> a[k] == b[k]
    ensures FileWritten(b, base, bs, at, f, first, i)
  {
    hide Place, Le;
    FinfoSame(a, b, base + at);
    forall k | 0 <= k < i ensures BinfoWritten(b, base, bs, at, f, first, k) {
      assert BinfoWritten(a, base, bs, at, f, first, k);
      BinfoEndStep(bs, at, IsDat(f), FinfoOf(f), k);
      BinfoEndMonotone(bs, at, IsDat(f), FinfoOf(f), k + 1, i);
      BinfoSame(a, b, base + BinfoAt(bs, at, IsDat(f), FinfoOf(f), k), IsDat(f));
    }
  }

  lemma {:induction false} BinfoEndStep(bs: nat, at: nat, useReal: bool, fi: Finfo, k: nat)
    requires bs > 0 && k < fi.ndatablk
    ensures BinfoAt(bs, at, useReal, fi, k) + DataSize(useReal) == BinfoEnd(bs, at, useReal, fi, k + 1)
  {
  }

  lemma {:induction false} FinfoSame(a: seq<Byte>, b: seq<Byte>, at: nat)
    requires at + FINFO_SIZE <= |a| && |a| == |b| && forall i :: at <= i < at + FINFO_SIZE ==> a[i] == b[i]
    ensures ReadFinfo(a, at) == ReadFinfo(b, at)
  {
    hide Le;
    LeSame(a, b, at, 8);
    LeSame(a, b, at + 8, 8);
    LeSame(a, b, at + 16, 4);
    LeSame(a, b, at + 20, 4);
  }

  lemma {:induction false} BinfoSame(a: seq<Byte>, b: seq<Byte>, at: nat, useReal: bool)
    requires at + DataSize(useReal) <= |a| && |a| == |b|
    requires forall i :: at <= i < at + DataSize(useReal) ==> a[i] == b[i]
    ensures ReadBinfo(a, at, useReal, true) == ReadBinfo(b, at, useReal, true)
  {
    hide Le;
    LeSame(a, b, at, 8);
    if !useReal {
      LeSame(a, b, at + 8, 8);
    }
  }

  // ----- writing -----

  ghost predicate Apart(disk: array<Byte>, dat: Dat) {
    disk as object !in {dat, dat.group, dat.group.bitmap, dat.entries}
  }

  /** The numbers from `first` on resolve to the first i blocks of the file. */
  ghost predicate Resolves(entries: seq<DatEntry>, f: FileInfo, cno: nat, first: nat, i: nat) {
    (i > 0 ==> first + i <= |entries|) && forall v :: first <= v < first + i ==>
      entries[v] == DatEntry(f.startBlocknr + (v - first), cno, CNO_MAX)
  }

  /** The next binfo of a file goes to the next place. */
  method WriteBinfo(disk: array<Byte>, bs: nat, startBlocknr: nat, f: FileInfo, ghost at: nat, sumOffset: nat, b: Binfo,
                    ghost first: nat, ghost i: nat) returns (end: nat)
    requires bs >= 1024 && i < f.nblocks < LIMIT32 && b == BinfoFor(f, first, i)
    requires b.Virtual? ==> b.vblocknr < LIMIT64
    requires startBlocknr * bs >= 0 && FileWritten(disk[..], startBlocknr * bs, bs, at, f, first, i)
    requires sumOffset == BinfoEnd(bs, at, IsDat(f), FinfoOf(f), i)
    requires startBlocknr * bs + BinfoEnd(bs, at, IsDat(f), FinfoOf(f), f.nblocks) <= disk.Length
    modifies disk
    ensures end == BinfoEnd(bs, at, IsDat(f), FinfoOf(f), i + 1) >= sumOffset
    ensures FileWritten(disk[..], startBlocknr * bs, bs, at, f, first, i + 1)
    ensures SameOutside(old(disk[..]), disk[..], startBlocknr * bs + sumOffset, startBlocknr * bs + end)
  {
    hide Place, BinfoEnd, ReadFinfo, ReadBinfo, BinfoWritten, FileWritten;
    var pos;
    pos, end := MapSegsumInfo(bs, startBlocknr, sumOffset, if b.Real? then 8 else 16);
    WriteOne(bs, at, f, i, disk.Length, startBlocknr * bs);
    ghost var before := disk[..];
    StoreBinfo(disk, pos, b);
    ExtendWritten(before, disk[..], startBlocknr * bs, bs, at, f, first, i);
  }

  /** The binfo loop of update_blocknr for the DAT. */
  method UpdateReal(disk: array<Byte>, bs: nat, startBlocknr: nat, f: FileInfo, ghost at: nat, sumOffset0: nat)
    returns (sumOffset: nat, bmap: seq<nat>)
    requires BlockSize(bs) && bs >= 1024 && IsDat(f) && f.nblocks < LIMIT32
    requires startBlocknr * bs >= 0 && FileWritten(disk[..], startBlocknr * bs, bs, at, f, 0, 0)
    requires sumOffset0 == at + FINFO_SIZE
    requires startBlocknr * bs + BinfoEnd(bs, at, true, FinfoOf(f), f.nblocks) <= disk.Length
    modifies disk
    ensures sumOffset == BinfoEnd(bs, at, true, FinfoOf(f), f.nblocks)
    ensures FileWritten(disk[..], startBlocknr * bs, bs, at, f, 0, f.nblocks)
    ensures SameOutside(old(disk[..]), disk[..], startBlocknr * bs + at + FINFO_SIZE, startBlocknr * bs + sumOffset)
    ensures bmap == Bmap(f, 0, f.nblocks)
  {
    hide Place, BinfoEnd, ReadFinfo, ReadBinfo, BlockSize, BinfoWritten, FileWritten, SameOutside, Bmap;
    ghost var base := startBlocknr * bs;
    sumOffset, bmap := sumOffset0, [0];
    assert BinfoEnd(bs, at, true, FinfoOf(f), 0) == at + FINFO_SIZE by { BinfoEndZero(bs, at, true, FinfoOf(f)); }
    ghost var start := disk[..];
    NothingAssigned([], f, 0, 0);
    NothingOutside(start, base + sumOffset);
    for i := 0 to f.nblocks
      invariant sumOffset == BinfoEnd(bs, at, true, FinfoOf(f), i)
      invariant FileWritten(disk[..], base, bs, at, f, 0, i)
      invariant SameOutside(start, disk[..], base + at + FINFO_SIZE, base + sumOffset)
      invariant bmap == Bmap(f, 0, i)
    {
      ghost var before, at0 := disk[..], sumOffset;
      sumOffset := WriteBinfo(disk, bs, startBlocknr, f, at, sumOffset, Real(i), 0, i);
      SameOutsideGrows(start, before, disk[..], base + at + FINFO_SIZE, base + at0, base + sumOffset);
      BmapNext(f, 0, i);
      bmap := bmap + [f.startBlocknr + i];
    }
  }

  lemma {:induction false} BinfoEndZero(bs: nat, at: nat, useReal: bool, fi: Finfo)
    requires bs > 0
    ensures BinfoEnd(bs, at, useReal, fi, 0) == at + FINFO_SIZE
  {
  }

  /** The i-th binfo lies after the earlier ones and before the end of the file's records. */
  lemma {:induction false} WriteOne(bs: nat, at: nat, f: FileInfo, i: nat, length: nat, base: nat)
    requires bs >= 1024 && i < f.nblocks
    requires base + BinfoEnd(bs, at, IsDat(f), FinfoOf(f), f.nblocks) <= length
    ensures var end, size := BinfoEnd(bs, at, IsDat(f), FinfoOf(f), i), DataSize(IsDat(f));
            var place := Place(bs, end, size);
            && place == BinfoAt(bs, at, IsDat(f), FinfoOf(f), i)
            && place + size == BinfoEnd(bs, at, IsDat(f), FinfoOf(f), i + 1)
            && at + FINFO_SIZE <= end <= place && base + place + size <= length
  {
    BinfoEndStep(bs, at, IsDat(f), FinfoOf(f), i);
    BinfoEndMonotone(bs, at, IsDat(f), FinfoOf(f), i + 1, f.nblocks);
  }

  /** Storing the i-th binfo extends the written part of a file. */
  lemma {:induction false} ExtendWritten(a: seq<Byte>, b: seq<Byte>, base: nat, bs: nat, at: nat, f: FileInfo,
                                         first: nat, i: nat)
    requires bs >= 1024 && i < f.nblocks && FileWritten(a, base, bs, at, f, first, i)
    requires var place := base + BinfoAt(bs, at, IsDat(f), FinfoOf(f), i);
             && SameOutside(a, b, place, place + DataSize(IsDat(f)))
             && place + DataSize(IsDat(f)) <= |b|
             && ReadBinfo(b, place, IsDat(f), true) == BinfoFor(f, first, i)
    ensures FileWritten(b, base, bs, at, f, first, i + 1)
  {
    hide Place, BinfoEnd, ReadFinfo, ReadBinfo, SameOutside, BinfoAt, Le;
    var place := base + BinfoAt(bs, at, IsDat(f), FinfoOf(f), i);
    WriteOne(bs, at, f, i, |b| + BinfoEnd(bs, at, IsDat(f), FinfoOf(f), f.nblocks) + base, base);
    BinfoEndStep(bs, at, IsDat(f), FinfoOf(f), i);
    FileKept(a, b, base, bs, at, f, first, i, place, place + DataSize(IsDat(f)));
    assert BinfoWritten(b, base, bs, at, f, first, i);
  }

  /** The block map of an inode: entry 0 is unused, then one number for each block. */
  function Bmap(f: FileInfo, first: nat, n: nat): (bmap: seq<nat>)
    ensures |bmap| == 1 + n
  {
    var start := if IsDat(f) then f.startBlocknr else first;
    [0] + seq(n, k requires 0 <= k < n => start + k as nat)
  }

  /** The DAT entries of the numbers below n are the same. */
  ghost predicate EntriesKept(a: seq<DatEntry>, b: seq<DatEntry>, n: nat) {
    |a| == |b| && forall v :: 0 <= v < n && v < |a| ==> b[v] == a[v]
  }

  /** The DAT has room for `count` more numbers. */
  ghost predicate HasRoom(dat: Dat, next: nat, count: nat)
    reads dat.group
  {
    next + count <= dat.entries.Length && next + count <= 8 * dat.group.blocksize
  }

  /** The next block of a file gets the next virtual number. */
  method AssignNext(dat: Dat, f: FileInfo, ghost first: nat, i: nat, ghost entries0: seq<DatEntry>)
    returns (vblocknr: nat, ok: bool)
    requires dat.Valid() && dat.vblocknr == first + i
    requires Resolves(dat.entries[..], f, dat.cno, first, i) && EntriesKept(entries0, dat.entries[..], first)
    modifies dat, dat.group, dat.group.bitmap, dat.entries
    ensures ok <==> HasRoom(dat, first, i + 1)
    ensures ok ==> dat.Valid() && dat.vblocknr == first + i + 1 && vblocknr == first + i
    ensures ok ==> Resolves(dat.entries[..], f, dat.cno, first, i + 1) && EntriesKept(entries0, dat.entries[..], first)
  {
    hide Dat.Valid;
    vblocknr, ok := dat.AssignVblocknr(f.startBlocknr + i);
  }

  lemma {:induction false} BmapNext(f: FileInfo, first: nat, i: nat)
    ensures Bmap(f, first, i) + [if IsDat(f) then f.startBlocknr + i else first + i] == Bmap(f, first, i + 1)
  {
  }

  lemma {:induction false} NothingOutside(buf: seq<Byte>, at: nat)
    ensures SameOutside(buf, buf, at, at)
  {
  }

  /** Two changes, the second right behind the first. */
  lemma {:induction false} SameOutsideGrows(a: seq<Byte>, b: seq<Byte>, c: seq<Byte>, lo: nat, mid: nat, hi: nat)
    requires lo <= mid <= hi && SameOutside(a, b, lo, mid) && SameOutside(b, c, mid, hi)
    ensures SameOutside(a, c, lo, hi)
  {
  }

  /** The binfo loop of update_blocknr for any other file; it stops when the DAT is full. */
  method UpdateVirtual(disk: array<Byte>, dat: Dat, bs: nat, startBlocknr: nat, f: FileInfo, ghost at: nat,
                       sumOffset0: nat)
    returns (sumOffset: nat, bmap: seq<nat>, ok: bool)
    requires BlockSize(bs) && 1024 <= bs < LIMIT32 && !IsDat(f) && 0 < f.nblocks < LIMIT32
    requires dat.Valid() && dat.group.blocksize == bs && Apart(disk, dat)
    requires startBlocknr * bs >= 0 && FileWritten(disk[..], startBlocknr * bs, bs, at, f, dat.vblocknr, 0)
    requires sumOffset0 == at + FINFO_SIZE
    requires startBlocknr * bs + BinfoEnd(bs, at, false, FinfoOf(f), f.nblocks) <= disk.Length
    modifies disk, dat, dat.group, dat.group.bitmap, dat.entries
    ensures ok <==> HasRoom(dat, old(dat.vblocknr), f.nblocks)
    ensures ok ==> sumOffset == BinfoEnd(bs, at, false, FinfoOf(f), f.nblocks)
    ensures ok ==> FileWritten(disk[..], startBlocknr * bs, bs, at, f, old(dat.vblocknr), f.nblocks)
    ensures ok ==> SameOutside(old(disk[..]), disk[..], startBlocknr * bs + at + FINFO_SIZE,
                               startBlocknr * bs + sumOffset)
    ensures ok ==> bmap == Bmap(f, old(dat.vblocknr), f.nblocks)
    ensures ok ==> dat.Valid() && dat.vblocknr == old(dat.vblocknr) + f.nblocks
    ensures ok ==> Resolves(dat.entries[..], f, dat.cno, old(dat.vblocknr), f.nblocks)
    ensures ok ==> EntriesKept(old(dat.entries[..]), dat.entries[..], old(dat.vblocknr))
  {
    hide Place, BinfoEnd, ReadFinfo, ReadBinfo, BlockSize, Dat.Valid, BinfoWritten, FileWritten, SameOutside, Resolves,
      EntriesKept, Bmap;
    ghost var base := startBlocknr * bs;
    ghost var first := dat.vblocknr;
    sumOffset, bmap, ok := sumOffset0, [0], true;
    assert BinfoEnd(bs, at, false, FinfoOf(f), 0) == at + FINFO_SIZE by { BinfoEndZero(bs, at, false, FinfoOf(f)); }
    ghost var start, entries := disk[..], dat.entries[..];
    NothingAssigned(entries, f, dat.cno, first);
    NothingOutside(start, base + sumOffset);
    for i := 0 to f.nblocks
      invariant dat.Valid() && dat.vblocknr == first + i && (i > 0 ==> HasRoom(dat, first, i))
      invariant sumOffset == BinfoEnd(bs, at, false, FinfoOf(f), i)
      invariant FileWritten(disk[..], base, bs, at, f, first, i)
      invariant SameOutside(start, disk[..], base + at + FINFO_SIZE, base + sumOffset)
      invariant bmap == Bmap(f, first, i)
      invariant Resolves(dat.entries[..], f, dat.cno, first, i)
      invariant EntriesKept(entries, dat.entries[..], first)
    {
      ghost var before, at0 := disk[..], sumOffset;
      var vblocknr, done := AssignNext(dat, f, first, i, entries);
      if !done {
        return sumOffset, bmap, false;
      }
      sumOffset := WriteBinfo(disk, bs, startBlocknr, f, at, sumOffset, Virtual(vblocknr, i), first, i);
      SameOutsideGrows(start, before, disk[..], base + at + FINFO_SIZE, base + at0, base + sumOffset);
      BmapNext(f, first, i);
      bmap := bmap + [vblocknr];
    }
  }

  /** The finfo of a file goes to the next place. */
  method WriteFinfo(disk: array<Byte>, bs: nat, startBlocknr: nat, f: FileInfo, sumOffset0: nat, ghost first: nat)
    returns (sumOffset: nat)
    requires bs >= 1024 && f.nblocks < LIMIT32 && f.ino < LIMIT64
    requires startBlocknr * bs >= 0
    requires startBlocknr * bs
             + BinfoEnd(bs, Place(bs, sumOffset0, FINFO_SIZE), IsDat(f), FinfoOf(f), f.nblocks) <= disk.Length
    modifies disk
    ensures var at := Place(bs, sumOffset0, FINFO_SIZE);
            && sumOffset == at + FINFO_SIZE && sumOffset0 <= at
            && FileWritten(disk[..], startBlocknr * bs, bs, at, f, first, 0)
            && SameOutside(old(disk[..]), disk[..], startBlocknr * bs + at, startBlocknr * bs + sumOffset)
  {
    hide Place, BinfoEnd, ReadFinfo, BinfoWritten;
    ghost var at := Place(bs, sumOffset0, FINFO_SIZE);
    BinfoEndZero(bs, at, IsDat(f), FinfoOf(f));
    BinfoEndMonotone(bs, at, IsDat(f), FinfoOf(f), 0, f.nblocks);
    var pos;
    pos, sumOffset := MapSegsumInfo(bs, startBlocknr, sumOffset0, FINFO_SIZE);
    StoreFinfo(disk, pos, FinfoOf(f));
  }

  /** The number of virtual block numbers that a file takes. */
  function Needs(f: FileInfo): nat { if IsDat(f) then 0 else f.nblocks }

  /**
   update_blocknr, for a file whose blocks have entries in the block map of its inode; it stops when the
   DAT is full.
   */
  method UpdateBlocknr(disk: array<Byte>, dat: Dat, bs: nat, startBlocknr: nat, f: FileInfo, sumOffset0: nat)
    returns (sumOffset: nat, bmap: seq<nat>, ok: bool)
    requires BlockSize(bs) && 1024 <= bs < LIMIT32 && f.nblocks <= MAX_BMAP_ROOT_PTRS && f.ino < LIMIT64
    requires dat.Valid() && dat.group.blocksize == bs && Apart(disk, dat)
    requires startBlocknr * bs >= 0
    requires var at := Place(bs, sumOffset0, FINFO_SIZE);
             f.nblocks > 0 ==> startBlocknr * bs + BinfoEnd(bs, at, IsDat(f), FinfoOf(f), f.nblocks) <= disk.Length
    modifies disk, dat, dat.group, dat.group.bitmap, dat.entries
    ensures ok <==> Needs(f) == 0 || HasRoom(dat, old(dat.vblocknr), Needs(f))
    ensures ok && f.nblocks == 0 ==> sumOffset == sumOffset0 && disk[..] == old(disk[..])
    ensures ok && f.nblocks > 0 ==>
              var at := Place(bs, sumOffset0, FINFO_SIZE);
              && sumOffset == BinfoEnd(bs, at, IsDat(f), FinfoOf(f), f.nblocks)
              && FileWritten(disk[..], startBlocknr * bs, bs, at, f, if IsDat(f) then 0 else old(dat.vblocknr),
                             f.nblocks)
              && SameOutside(old(disk[..]), disk[..], startBlocknr * bs + sumOffset0, startBlocknr * bs + sumOffset)
    ensures ok ==> bmap == Bmap(f, old(dat.vblocknr), f.nblocks) && |bmap| <= 1 + MAX_BMAP_ROOT_PTRS
    ensures ok ==> dat.Valid() && dat.vblocknr == old(dat.vblocknr) + Needs(f)
    ensures ok && !IsDat(f) ==> Resolves(dat.entries[..], f, dat.cno, old(dat.vblocknr), f.nblocks)
    ensures ok ==> EntriesKept(old(dat.entries[..]), dat.entries[..], old(dat.vblocknr))
  {
    hide Place, BinfoEnd, BlockSize, Dat.Valid, FileWritten, Resolves, Bmap, SameOutside, EntriesKept;
    NothingAssigned(dat.entries[..], f, dat.cno, dat.vblocknr);
    if f.nblocks == 0 {
      return sumOffset0, [0], true;
    }
    ghost var s0 := disk[..];
    ghost var at := Place(bs, sumOffset0, FINFO_SIZE);
    sumOffset := WriteFinfo(disk, bs, startBlocknr, f, sumOffset0, if IsDat(f) then 0 else dat.vblocknr);
    ghost var s1 := disk[..];
    if IsDat(f) {
      sumOffset, bmap := UpdateReal(disk, bs, startBlocknr, f, at, sumOffset);
      DatBmap(f, 0, dat.vblocknr, f.nblocks);
      ok := true;
    } else {
      sumOffset, bmap, ok := UpdateVirtual(disk, dat, bs, startBlocknr, f, at, sumOffset);
      if !ok {
        return;
      }
    }
    SameOutsideTwice(s0, s1, disk[..], startBlocknr * bs + sumOffset0, startBlocknr * bs + at,
                     startBlocknr * bs + at + FINFO_SIZE, startBlocknr * bs + sumOffset);
  }

  lemma {:induction false} NothingAssigned(entries: seq<DatEntry>, f: FileInfo, cno: nat, n: nat)
    ensures EntriesKept(entries, entries, n) && Resolves(entries, f, cno, n, 0) && Bmap(f, n, 0) == [0]
  {
  }

  lemma {:induction false} SameOutsideTwice(a: seq<Byte>, b: seq<Byte>, c: seq<Byte>, lo: nat, at: nat, mid: nat,
                                            hi: nat)
    requires lo <= at <= mid <= hi
    ensures SameOutside(a, b, at, mid) && SameOutside(b, c, mid, hi) ==> SameOutside(a, c, lo, hi)
  {
  }

  lemma {:induction false} DatBmap(f: FileInfo, a: nat, b: nat, n: nat)
    requires IsDat(f)
    ensures Bmap(f, a, n) == Bmap(f, b, n)
  {
  }
}
