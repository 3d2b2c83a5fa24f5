/** Collecting descriptors of the blocks that the logs of a segment describe. */
module BlockCollect {
  import opened Wrappers
  import opened Arithmetic
  import opened Layout
  import opened Bytes
  import opened SegmentFormat
  import opened SegmentReader
  import opened Vectors

  /** A block that the iterators yield. */
  datatype Block = Block(ino: nat, cno: nat, blocknr: nat, binfo: Binfo)

  datatype Period = Period(start: nat, end: nat)

  /** Descriptor of a block with a virtual number; its period is asked for later. */
  datatype Vdesc = Vdesc(ino: nat, cno: nat, vblocknr: nat, period: Period, blocknr: nat, offset: nat, node: bool)

  /** Descriptor of a block of the DAT. */
  datatype Bdesc = Bdesc(ino: nat, oblocknr: nat, blocknr: nat, offset: nat, level: nat)

  // ----- the blocks of a file -----

  /** A file that the file iterator may yield: it passed the checks. */
  ghost predicate GoodFile(seg: Segment, p: Pseg, f: File) {
    && ValidPseg(seg, p)
    && f.offset + FINFO_SIZE <= p.header.sumbytes
    && f == FileAt(seg, p, f.offset, f.blocknr)
    && f.offset + FileInfoSize(seg.bs, f.offset, f.useReal, f.finfo) <= p.header.sumbytes
    && FirstBlock(seg, p) <= f.blocknr
    && f.blocknr + f.finfo.nblocks <= p.blocknr + p.header.nblocks
    && f.finfo.ndatablk <= f.finfo.nblocks
  }

  /** Every binfo of such a file lies within the summary. */
  lemma {:induction false} BinfoReadable(seg: Segment, p: Pseg, f: File, i: nat)
    requires GoodFile(seg, p, f) && i < f.finfo.nblocks
    ensures var at := BinfoAt(seg.bs, f.offset, f.useReal, f.finfo, i);
            at + BinfoSize(f.useReal, f.finfo, i) <= p.header.sumbytes && p.segsum + p.header.sumbytes < |seg.addr|
  {
    BinfoWithin(seg.bs, f.offset, f.useReal, f.finfo, i);
  }

  function BlockAt(seg: Segment, p: Pseg, f: File, i: nat): Block
    requires GoodFile(seg, p, f) && i < f.finfo.nblocks
  {
    BinfoReadable(seg, p, f, i);
    var at := BinfoAt(seg.bs, f.offset, f.useReal, f.finfo, i);
    Block(f.finfo.ino, f.finfo.cno, f.blocknr + i,
          ReadBinfo(seg.addr, p.segsum + at, f.useReal, i < f.finfo.ndatablk))
  }

  /** The first n blocks of a file. */
  function FileBlocks(seg: Segment, p: Pseg, f: File, n: nat): (blocks: seq<Block>)
    requires GoodFile(seg, p, f) && n <= f.finfo.nblocks
    ensures |blocks| == n
    ensures forall i :: 0 <= i < n ==> blocks[i].blocknr == f.blocknr + i
  {
    if n == 0 then [] else FileBlocks(seg, p, f, n - 1) + [BlockAt(seg, p, f, n - 1)]
  }

  /** struct nilfs_block */
  class BlockIterator {
    const segment: Segment
    const psegment: Pseg
    const file: File
    var binfo: nat    // pointer to the binfo
    var offset: nat
    var blocknr: nat
    var index: nat
    const nbinfo: nat
    const nbinfoData: nat
    const dsize: nat
    const nsize: nat

    ghost predicate Valid()
      reads this
    {
      && GoodFile(segment, psegment, file)
      && nbinfo == file.finfo.nblocks && nbinfoData == file.finfo.ndatablk
      && dsize == DataSize(file.useReal) && nsize == NodeSize(file.useReal)
      && index <= nbinfo && blocknr == file.blocknr + index
      && offset == BinfoAt(segment.bs, file.offset, file.useReal, file.finfo, index)
      && binfo == psegment.segsum + offset
    }

    /** nilfs_block_init */
    constructor (segment: Segment, psegment: Pseg, file: File)
      requires GoodFile(segment, psegment, file)
      ensures Valid() && this.segment == segment && this.psegment == psegment && this.file == file && index == 0
    {
      this.segment, this.psegment, this.file := segment, psegment, file;
      binfo := psegment.segsum + file.offset + FINFO_SIZE;
      offset := file.offset + FINFO_SIZE;
      blocknr, index := file.blocknr, 0;
      nbinfo, nbinfoData := file.finfo.nblocks, file.finfo.ndatablk;
      dsize := if file.useReal then 8 else 16;
      nsize := if file.useReal then 16 else 8;
      new;
      AdjustBinfoPosition(segment.bs);
    }

    predicate IsData()
      reads this
    {
      index < nbinfoData
    }

    /** nilfs_block_adjust_binfo_position */
    method AdjustBinfoPosition(blksize: nat)
      requires blksize > 0 && binfo == psegment.segsum + offset
      modifies `binfo, `offset
      ensures binfo == psegment.segsum + offset
      ensures offset == Place(blksize, old(offset), if IsData() then dsize else nsize)
    {
      var rest := blksize - offset % blksize;
      var binfosize := if IsData() then dsize else nsize;
      if binfosize > rest {
        binfo := binfo + rest;
        offset := offset + rest;
      }
    }

    /** nilfs_block_is_end */
    predicate IsEnd()
      reads this
    {
      index >= nbinfo
    }

    /** nilfs_block_next */
    method Next()
      requires Valid() && !IsEnd()
      modifies `binfo, `offset, `blocknr, `index
      ensures Valid() && index == old(index) + 1
    {
      var binfosize := if IsData() then dsize else nsize;
      binfo := binfo + binfosize;
      offset := offset + binfosize;
      blocknr := blocknr + 1;
      index := index + 1;
      AdjustBinfoPosition(segment.bs);
    }

    /** The block that the iterator stands on, read through its pointer. */
    method Read() returns (b: Block)
      requires Valid() && !IsEnd()
      ensures b == BlockAt(segment, psegment, file, index)
    {
      BinfoReadable(segment, psegment, file, index);
      b := Block(file.finfo.ino, file.finfo.cno, blocknr, ReadBinfo(segment.addr, binfo, file.useReal, IsData()));
    }
  }

  // ----- descriptors -----

  predicate IsReal(b: Block) { b.binfo.Real? || b.binfo.RealNode? }

  function VdescOf(b: Block): Vdesc
    requires !IsReal(b)
  {
    match b.binfo
    case Virtual(v, off) => Vdesc(b.ino, b.cno, v, Period(0, 0), b.blocknr, off, false)
    case VirtualNode(v) => Vdesc(b.ino, b.cno, v, Period(0, 0), b.blocknr, 0, true)
  }

  function BdescOf(b: Block): Bdesc
    requires IsReal(b)
  {
    match b.binfo
    case Real(off) => Bdesc(b.ino, b.blocknr, 0, off, 0)
    case RealNode(off, level) => Bdesc(b.ino, b.blocknr, 0, off, level)
  }

  function VdescsOf(blocks: seq<Block>, n: nat): (vs: seq<Vdesc>)
    requires n <= |blocks|
    ensures |vs| + |BdescsOf(blocks, n)| == n
  {
    if n == 0 then []
    else
      var b := blocks[n - 1];
      if !IsReal(b) then VdescsOf(blocks, n - 1) + [VdescOf(b)] else VdescsOf(blocks, n - 1)
  }

  function BdescsOf(blocks: seq<Block>, n: nat): (bs: seq<Bdesc>)
    requires n <= |blocks|
  {
    if n == 0 then []
    else
      var b := blocks[n - 1];
      if IsReal(b) then BdescsOf(blocks, n - 1) + [BdescOf(b)] else BdescsOf(blocks, n - 1)
  }

  lemma {:induction false} DescsPrefix(a: seq<Block>, b: seq<Block>, n: nat)
    requires n <= |a| && n <= |b| && forall i :: 0 <= i < n ==> a[i] == b[i]
    ensures VdescsOf(a, n) == VdescsOf(b, n) && BdescsOf(a, n) == BdescsOf(b, n)
  {
    if n > 0 {
      DescsPrefix(a, b, n - 1);
    }
  }

  lemma {:induction false} DescsAppend(a: seq<Block>, b: seq<Block>, n: nat)
    requires n <= |b|
    ensures VdescsOf(a + b, |a| + n) == VdescsOf(a, |a|) + VdescsOf(b, n)
    ensures BdescsOf(a + b, |a| + n) == BdescsOf(a, |a|) + BdescsOf(b, n)
  {
    if n == 0 {
      DescsPrefix(a + b, a, |a|);
    } else {
      DescsAppend(a, b, n - 1);
    }
  }

  /** All descriptors of a list of blocks. */
  function Vdescs(blocks: seq<Block>): seq<Vdesc> { VdescsOf(blocks, |blocks|) }

  function Bdescs(blocks: seq<Block>): seq<Bdesc> { BdescsOf(blocks, |blocks|) }

  /** What collecting more blocks does to the two vectors. */
  twostate predicate Collected(vdescv: Vector<Vdesc>, bdescv: Vector<Bdesc>, blocks: seq<Block>)
    reads vdescv, vdescv.data, bdescv, bdescv.data
  {
    && old(vdescv.Valid()) && old(bdescv.Valid()) && vdescv.Valid() && bdescv.Valid()
    && vdescv.Contents() == old(vdescv.Contents()) + Vdescs(blocks)
    && bdescv.Contents() == old(bdescv.Contents()) + Bdescs(blocks)
  }

  lemma {:induction false} NextDesc(seg: Segment, p: Pseg, f: File, n: nat)
    requires GoodFile(seg, p, f) && n < f.finfo.nblocks
    ensures var b, before, after := BlockAt(seg, p, f, n), FileBlocks(seg, p, f, n), FileBlocks(seg, p, f, n + 1);
            && Vdescs(after) == Vdescs(before) + Vdescs([b]) && Bdescs(after) == Bdescs(before) + Bdescs([b])
            && (if f.useReal then IsReal(b) && Vdescs([b]) == [] && Bdescs([b]) == [BdescOf(b)]
                else !IsReal(b) && Vdescs([b]) == [VdescOf(b)] && Bdescs([b]) == [])
  {
    DescsAppend(FileBlocks(seg, p, f, n), [BlockAt(seg, p, f, n)], 1);
    assert BdescsOf([BlockAt(seg, p, f, n)], 0) == [] && VdescsOf([BlockAt(seg, p, f, n)], 0) == [];
  }

  // ----- what the descriptors of a file hold, byte by byte -----

  /** The descriptor of block k of a file other than the DAT: number and offset come from the bytes of its binfo. */
  ghost predicate DescribesVirtual(seg: Segment, p: Pseg, f: File, k: nat, d: Vdesc)
    requires GoodFile(seg, p, f) && k < f.finfo.nblocks
  {
    var at := p.segsum + BinfoAt(seg.bs, f.offset, f.useReal, f.finfo, k);
    && d.ino == f.finfo.ino && d.cno == f.finfo.cno && d.blocknr == f.blocknr + k
    && at + 8 <= |seg.addr| && d.vblocknr == Le(seg.addr, at, 8)
    && (d.node <==> k >= f.finfo.ndatablk)
    && (k < f.finfo.ndatablk ==> at + 16 <= |seg.addr| && d.offset == Le(seg.addr, at + 8, 8))
  }

  /** The descriptor of block k of the DAT: offset and level come from the bytes of its binfo. */
  ghost predicate DescribesReal(seg: Segment, p: Pseg, f: File, k: nat, d: Bdesc)
    requires GoodFile(seg, p, f) && k < f.finfo.nblocks
  {
    var at := p.segsum + BinfoAt(seg.bs, f.offset, f.useReal, f.finfo, k);
    && d.ino == f.finfo.ino && d.oblocknr == f.blocknr + k
    && at + 8 <= |seg.addr| && d.offset == Le(seg.addr, at, 8)
    && (if k < f.finfo.ndatablk then d.level == 0 else at + 16 <= |seg.addr| && d.level == seg.addr[at + 8])
  }

  lemma {:induction false} DescribedAt(seg: Segment, p: Pseg, f: File, k: nat)
    requires GoodFile(seg, p, f) && k < f.finfo.nblocks
    ensures var b := BlockAt(seg, p, f, k);
            if f.useReal then IsReal(b) && DescribesReal(seg, p, f, k, BdescOf(b))
            else !IsReal(b) && DescribesVirtual(seg, p, f, k, VdescOf(b))
  {
    hide GoodFile, Le, BinfoAt;
    BinfoReadable(seg, p, f, k);
  }

  /** One descriptor for each block of the file, in order. */
  lemma {:induction false} DescsDescribe(seg: Segment, p: Pseg, f: File, n: nat)
    requires GoodFile(seg, p, f) && n <= f.finfo.nblocks
    ensures var vs, bs := Vdescs(FileBlocks(seg, p, f, n)), Bdescs(FileBlocks(seg, p, f, n));
            if f.useReal then
              vs == [] && |bs| == n && forall k :: 0 <= k < n ==> DescribesReal(seg, p, f, k, bs[k])
            else
              bs == [] && |vs| == n && forall k :: 0 <= k < n ==> DescribesVirtual(seg, p, f, k, vs[k])
  {
    hide GoodFile, BlockAt, Vdescs, Bdescs, FileBlocks, IsReal, VdescOf, BdescOf, DescribesReal, DescribesVirtual;
    if n == 0 {
      FileBlocksStart(seg, p, f);
    } else {
      DescsDescribe(seg, p, f, n - 1);
      NextDesc(seg, p, f, n - 1);
      DescribedAt(seg, p, f, n - 1);
    }
  }

  /** The loop of nilfs_acc_blocks_file for the DAT. */
  method AccRealBlocks(segment: Segment, psegment: Pseg, file: File, bdescv: Vector<Bdesc>) returns (ok: bool)
    requires GoodFile(segment, psegment, file) && file.useReal && bdescv.Valid()
    modifies bdescv, bdescv.data
    ensures bdescv.Valid() && (fresh(bdescv.data) || bdescv.data == old(bdescv.data))
    ensures ok ==> bdescv.Contents() == old(bdescv.Contents()) + Bdescs(FileBlocks(segment, psegment, file,
        file.finfo.nblocks))
  {
    hide GoodFile, BlockAt, Bdescs, BdescsOf, Vdescs, VdescsOf, FileBlocks, BinfoAt, DataSize, NodeSize;
    var blk := new BlockIterator(segment, psegment, file);
    FileBlocksStart(segment, psegment, file);
    while !blk.IsEnd()
      invariant blk.Valid() && fresh(blk) && blk.segment == segment && blk.psegment == psegment && blk.file == file
      invariant bdescv.Valid() && (fresh(bdescv.data) || bdescv.data == old(bdescv.data))
      invariant bdescv.Contents() == old(bdescv.Contents()) + Bdescs(FileBlocks(segment, psegment, file, blk.index))
      decreases file.finfo.nblocks - blk.index
    {
      var b := blk.Read();
      NextDesc(segment, psegment, file, blk.index);
      ok := bdescv.Append(BdescOf(b));
      if !ok {
        return;
      }
      blk.Next();
    }
    return true;
  }

  /** The loop of nilfs_acc_blocks_file for the other files. */
  method AccVirtualBlocks(segment: Segment, psegment: Pseg, file: File, vdescv: Vector<Vdesc>) returns (ok: bool)
    requires GoodFile(segment, psegment, file) && !file.useReal && vdescv.Valid()
    modifies vdescv, vdescv.data
    ensures vdescv.Valid() && (fresh(vdescv.data) || vdescv.data == old(vdescv.data))
    ensures ok ==> vdescv.Contents() == old(vdescv.Contents()) + Vdescs(FileBlocks(segment, psegment, file,
        file.finfo.nblocks))
  {
    hide GoodFile, BlockAt, Bdescs, BdescsOf, Vdescs, VdescsOf, FileBlocks, BinfoAt, DataSize, NodeSize;
    var blk := new BlockIterator(segment, psegment, file);
    FileBlocksStart(segment, psegment, file);
    while !blk.IsEnd()
      invariant blk.Valid() && fresh(blk) && blk.segment == segment && blk.psegment == psegment && blk.file == file
      invariant vdescv.Valid() && (fresh(vdescv.data) || vdescv.data == old(vdescv.data))
      invariant vdescv.Contents() == old(vdescv.Contents()) + Vdescs(FileBlocks(segment, psegment, file, blk.index))
      decreases file.finfo.nblocks - blk.index
    {
      var b := blk.Read();
      NextDesc(segment, psegment, file, blk.index);
      ok := vdescv.Append(VdescOf(b));
      if !ok {
        return;
      }
      blk.Next();
    }
    return true;
  }

  lemma {:induction false} FileBlocksStart(seg: Segment, p: Pseg, f: File)
    requires GoodFile(seg, p, f)
    ensures Vdescs(FileBlocks(seg, p, f, 0)) == [] && Bdescs(FileBlocks(seg, p, f, 0)) == []
  {
  }

  /** nilfs_acc_blocks_file */
  method AccBlocksFile(segment: Segment, psegment: Pseg, file: File, vdescv: Vector<Vdesc>, bdescv: Vector<Bdesc>)
    returns (ok: bool)
    requires GoodFile(segment, psegment, file)
    requires vdescv.Valid() && bdescv.Valid()
    modifies vdescv, vdescv.data, bdescv, bdescv.data
    ensures vdescv.Valid() && (fresh(vdescv.data) || vdescv.data == old(vdescv.data))
    ensures bdescv.Valid() && (fresh(bdescv.data) || bdescv.data == old(bdescv.data))
    ensures ok ==> Collected(vdescv, bdescv, FileBlocks(segment, psegment, file, file.finfo.nblocks))
    ensures ok && file.useReal ==>
              && vdescv.Contents() == old(vdescv.Contents())
              && old(bdescv.Contents()) <= bdescv.Contents()
              && var more := bdescv.Contents()[old(bdescv.nelems)..];
                 && |more| == file.finfo.nblocks
                 && forall k :: 0 <= k < |more| ==> DescribesReal(segment, psegment, file, k, more[k])
    ensures ok && !file.useReal ==>
              && bdescv.Contents() == old(bdescv.Contents())
              && old(vdescv.Contents()) <= vdescv.Contents()
              && var more := vdescv.Contents()[old(vdescv.nelems)..];
                 && |more| == file.finfo.nblocks
                 && forall k :: 0 <= k < |more| ==> DescribesVirtual(segment, psegment, file, k, more[k])
  {
    hide GoodFile, FileBlocks, Vdescs, Bdescs, DescribesReal, DescribesVirtual, VdescOf, BdescOf;
    DescsDescribe(segment, psegment, file, file.finfo.nblocks);
    if file.useReal {
      ok := AccRealBlocks(segment, psegment, file, bdescv);
    } else {
      ok := AccVirtualBlocks(segment, psegment, file, vdescv);
    }
  }

  // ----- the blocks of a log and of a segment -----

  ghost predicate AllGood(seg: Segment, p: Pseg, files: seq<File>) {
    forall i :: 0 <= i < |files| ==> GoodFile(seg, p, files[i])
  }

  /** The files that the file iterator yields passed its checks. */
  lemma {:induction false} FilesGood(seg: Segment, p: Pseg, index: nat, offset: nat, blocknr: nat)
    requires ValidPseg(seg, p) && FirstBlock(seg, p) <= blocknr
    ensures AllGood(seg, p, Files(seg, p, index, offset, blocknr).0)
    decreases p.header.nfinfo - index
  {
    if index < p.header.nfinfo && CheckFile(seg, p, offset, blocknr) == FileSuccess {
      LengthReadable(seg, p, offset);
      var f := FileAt(seg, p, offset, blocknr);
      LengthNat(seg, p, offset);
      FilesGood(seg, p, index + 1, Place(seg.bs, offset + SumLength(seg, p, offset), FINFO_SIZE),
                blocknr + f.finfo.nblocks);
    }
  }

  function FilesBlocks(seg: Segment, p: Pseg, files: seq<File>): seq<Block>
    requires AllGood(seg, p, files)
  {
    if files == [] then []
    else FileBlocks(seg, p, files[0], files[0].finfo.nblocks) + FilesBlocks(seg, p, files[1..])
  }

  /** The blocks of a log, unless a file of it is damaged. */
  function PsegBlocks(seg: Segment, p: Pseg): Option<seq<Block>>
    requires ValidPseg(seg, p)
  {
    FilesGood(seg, p, 0, FirstOffset(seg, p), FirstBlock(seg, p));
    var (files, error) := FilesOf(seg, p);
    if error != FileSuccess then None else Some(FilesBlocks(seg, p, files))
  }

  ghost predicate AllValid(seg: Segment, psegs: seq<Pseg>) {
    forall i :: 0 <= i < |psegs| ==> ValidPseg(seg, psegs[i])
  }

  /** A log that passes the checks lies within the segment. */
  lemma {:induction false} OneValid(seg: Segment, segsum: nat, blocknr: nat, blkcnt: nat)
    requires ValidSegment(seg) && PsegPosition(seg, segsum, blocknr, blkcnt)
    requires segsum + SEGSUM_SIZE <= |seg.addr| && CheckPseg(seg, segsum, blocknr).0
    ensures ValidPseg(seg, Pseg(segsum, blocknr, ReadSegsum(seg.addr, segsum)))
  {
    hide ReadSegsum, Checksum, ValidSegment, RoundUpBlocks;
    SegmentSized(seg);
  }

  lemma {:induction false} SegmentSized(seg: Segment)
    requires ValidSegment(seg)
    ensures seg.bs > 0
  {
  }

  lemma {:induction false} ValidCons(seg: Segment, p: Pseg, psegs: seq<Pseg>)
    requires ValidPseg(seg, p) && AllValid(seg, psegs)
    ensures AllValid(seg, [p] + psegs)
  {
    hide ValidPseg;
  }

  /** The logs that the log iterator yields lie within the segment. */
  lemma {:induction false} PsegsValid(seg: Segment, segsum: nat, blocknr: nat, blkcnt: nat)
    requires ValidSegment(seg) && PsegPosition(seg, segsum, blocknr, blkcnt)
    ensures AllValid(seg, Psegs(seg, segsum, blocknr, blkcnt).0)
    decreases blkcnt
  {
    hide ReadSegsum, Checksum, ValidSegment, RoundUpBlocks, Psegs, CheckPseg, ValidPseg, PsegPosition;
    SegmentSized(seg);
    if blkcnt >= PSEG_MIN_BLOCKS {
      HeaderReadable(seg, segsum, blocknr, blkcnt);
    }
    if blkcnt >= PSEG_MIN_BLOCKS && CheckPseg(seg, segsum, blocknr).0 {
      PsegsStep(seg, segsum, blocknr, blkcnt);
      var h := ReadSegsum(seg.addr, segsum);
      var left := if blkcnt >= h.nblocks then blkcnt - h.nblocks else 0;
      PsegsValid(seg, segsum + h.nblocks * seg.bs, blocknr + h.nblocks, left);
      OneValid(seg, segsum, blocknr, blkcnt);
      ValidCons(seg, Pseg(segsum, blocknr, h), Psegs(seg, segsum + h.nblocks * seg.bs, blocknr + h.nblocks, left).0);
    } else {
      PsegsStop(seg, segsum, blocknr, blkcnt);
    }
  }

  function PsegsBlocks(seg: Segment, psegs: seq<Pseg>): Option<seq<Block>>
    requires AllValid(seg, psegs)
  {
    if psegs == [] then Some([])
    else
      var first := PsegBlocks(seg, psegs[0]);
      if first.None? then None
      else
        var others := PsegsBlocks(seg, psegs[1..]);
        if others.None? then None else Some(first.value + others.value)
  }

  /** The logs in the first `nblocks` blocks of a segment. */
  function LogsOf(seg: Segment, nblocks: nat): (seq<Pseg>, PsegError)
    requires ValidSegment(seg)
  {
    Psegs(seg, 0, seg.blocknr, if nblocks < seg.nblocks then nblocks else seg.nblocks)
  }

  /** The blocks that the valid logs of a segment describe, unless a log or a file is damaged. */
  function SegmentBlocks(seg: Segment, nblocks: nat): Option<seq<Block>>
    requires ValidSegment(seg)
  {
    PsegsValid(seg, 0, seg.blocknr, if nblocks < seg.nblocks then nblocks else seg.nblocks);
    var (psegs, error) := LogsOf(seg, nblocks);
    if error != PsegSuccess then None else PsegsBlocks(seg, psegs)
  }

  lemma {:induction false} FilesBlocksCons(seg: Segment, p: Pseg, f: File, files: seq<File>)
    requires AllGood(seg, p, [f] + files)
    ensures GoodFile(seg, p, f) && AllGood(seg, p, files)
    ensures FilesBlocks(seg, p, [f] + files) == FileBlocks(seg, p, f, f.finfo.nblocks) + FilesBlocks(seg, p, files)
  {
    hide GoodFile, FileBlocks;
    var all := [f] + files;
    assert all[0] == f && all[1..] == files;
    forall i | 0 <= i < |files| ensures GoodFile(seg, p, files[i]) {
      assert all[i + 1] == files[i];
    }
  }

  lemma {:induction false} FilesBlocksNil(seg: Segment, p: Pseg)
    ensures AllGood(seg, p, []) && FilesBlocks(seg, p, []) == []
  {
  }

  lemma {:induction false} PsegPlan(seg: Segment, p: Pseg)
    requires ValidPseg(seg, p)
    ensures AllGood(seg, p, FilesOf(seg, p).0)
    ensures FilesOf(seg, p).1 == FileSuccess ==> PsegBlocks(seg, p) == Some(FilesBlocks(seg, p, FilesOf(seg, p).0))
  {
    FilesGood(seg, p, 0, FirstOffset(seg, p), FirstBlock(seg, p));
  }

  /** One turn of the loop over the files of a log. */
  method AccNextFile(file: FileIterator, vdescv: Vector<Vdesc>, bdescv: Vector<Bdesc>)
    returns (ok: bool, ghost blocks: seq<Block>)
    requires file.Ready() && AllGood(file.segment, file.psegment, file.Rest().0)
    requires vdescv.Valid() && bdescv.Valid()
    modifies file, vdescv, vdescv.data, bdescv, bdescv.data
    ensures vdescv.Valid() && (fresh(vdescv.data) || vdescv.data == old(vdescv.data))
    ensures bdescv.Valid() && (fresh(bdescv.data) || bdescv.data == old(bdescv.data))
    ensures file.Valid() && file.error == FileSuccess &&
            file.index == old(file.index) + 1 <= file.psegment.header.nfinfo
    ensures AllGood(file.segment, file.psegment, file.Rest().0) && file.Rest().1 == old(file.Rest().1)
    ensures old(FilesBlocks(file.segment, file.psegment, file.Rest().0)) ==
            blocks + FilesBlocks(file.segment, file.psegment, file.Rest().0)
    ensures ok ==> Collected(vdescv, bdescv, blocks)
  {
    hide GoodFile, AllGood, Bdescs, Vdescs, FileBlocks, FilesBlocks, FileIterator.Valid, FileIterator.Rest;
    var f := file.Current();
    file.Next();
    FilesBlocksCons(file.segment, file.psegment, f, file.Rest().0);
    blocks := FileBlocks(file.segment, file.psegment, f, f.finfo.nblocks);
    ok := AccBlocksFile(file.segment, file.psegment, f, vdescv, bdescv);
  }

  /** nilfs_acc_blocks_psegment */
  method AccBlocksPsegment(segment: Segment, psegment: Pseg, vdescv: Vector<Vdesc>, bdescv: Vector<Bdesc>)
    returns (ok: bool)
    requires ValidPseg(segment, psegment)
    requires vdescv.Valid() && bdescv.Valid()
    modifies vdescv, vdescv.data, bdescv, bdescv.data
    ensures vdescv.Valid() && (fresh(vdescv.data) || vdescv.data == old(vdescv.data))
    ensures bdescv.Valid() && (fresh(bdescv.data) || bdescv.data == old(bdescv.data))
    ensures ok ==> PsegBlocks(segment, psegment).Some? && Collected(vdescv, bdescv, PsegBlocks(segment, psegment).value)
  {
    hide AllGood, ValidPseg, Bdescs, Vdescs, FilesBlocks, PsegBlocks, FilesOf,
         FileIterator.Valid, FileIterator.Ready, FileIterator.Rest, Vector.Valid, Vector.Contents;
    PsegPlan(segment, psegment);
    ghost var (files, error) := FilesOf(segment, psegment);
    ghost var done: seq<Block> := [];
    NoDescs();
    FilesBlocksNil(segment, psegment);
    var file := new FileIterator(segment, psegment);
    var end := file.IsEnd();
    while !end
      invariant file.Valid() && fresh(file) && file.segment == segment && file.psegment == psegment
      invariant vdescv.Valid() && (fresh(vdescv.data) || vdescv.data == old(vdescv.data))
      invariant bdescv.Valid() && (fresh(bdescv.data) || bdescv.data == old(bdescv.data))
      invariant AllGood(segment, psegment, file.Rest().0) && file.Rest().1 == error
      invariant done + FilesBlocks(segment, psegment, file.Rest().0) == FilesBlocks(segment, psegment, files)
      invariant Collected(vdescv, bdescv, done)
      invariant if end then file.Rest() == ([], file.error) else file.Ready()
      decreases psegment.header.nfinfo - file.index, !end
    {
      ghost var blocks;
      ok, blocks := AccNextFile(file, vdescv, bdescv);
      if !ok {
        return;
      }
      DescsConcat(done, blocks);
      done := done + blocks;
      end := file.IsEnd();
    }
    assert done + [] == done;
    return file.error == FileSuccess;
  }

  lemma {:induction false} NoDescs()
    ensures Vdescs([]) == [] && Bdescs([]) == []
  {
  }

  lemma {:induction false} DescsConcat(a: seq<Block>, b: seq<Block>)
    ensures Vdescs(a + b) == Vdescs(a) + Vdescs(b) && Bdescs(a + b) == Bdescs(a) + Bdescs(b)
  {
    DescsAppend(a, b, |b|);
  }

  function Join(a: Option<seq<Block>>, b: Option<seq<Block>>): Option<seq<Block>> {
    if a.Some? && b.Some? then Some(a.value + b.value) else None
  }

  lemma {:induction false} JoinFacts(a: Option<seq<Block>>, b: Option<seq<Block>>, c: Option<seq<Block>>)
    ensures Join(Join(a, b), c) == Join(a, Join(b, c))
    ensures Join(Some([]), c) == c && Join(a, Some([])) == a
    ensures a.Some? && b.Some? ==> Join(a, b) == Some(a.value + b.value)
  {
    if a.Some? && b.Some? && c.Some? {
      assert (a.value + b.value) + c.value == a.value + (b.value + c.value);
    }
    if a.Some? {
      assert a.value + [] == a.value;
    }
    if c.Some? {
      assert [] + c.value == c.value;
    }
  }

  lemma {:induction false} PsegsBlocksCons(seg: Segment, p: Pseg, psegs: seq<Pseg>)
    requires AllValid(seg, [p] + psegs)
    ensures ValidPseg(seg, p) && AllValid(seg, psegs)
    ensures PsegsBlocks(seg, [p] + psegs) ==
            Join(PsegBlocks(seg, p), PsegsBlocks(seg, psegs))
  {
    hide ValidPseg, PsegBlocks;
    var all := [p] + psegs;
    assert all[0] == p && all[1..] == psegs;
    forall i | 0 <= i < |psegs| ensures ValidPseg(seg, psegs[i]) {
      assert all[i + 1] == psegs[i];
    }
  }

  /** One turn of the loop over the logs of a segment. */
  method AccNextPsegment(psegment: PsegmentIterator, vdescv: Vector<Vdesc>, bdescv: Vector<Bdesc>)
    returns (ok: bool, ghost blocks: Option<seq<Block>>)
    requires psegment.Ready() && AllValid(psegment.segment, psegment.Rest().0)
    requires vdescv.Valid() && bdescv.Valid()
    modifies psegment, vdescv, vdescv.data, bdescv, bdescv.data
    ensures vdescv.Valid() && (fresh(vdescv.data) || vdescv.data == old(vdescv.data))
    ensures bdescv.Valid() && (fresh(bdescv.data) || bdescv.data == old(bdescv.data))
    ensures psegment.Valid() && psegment.error == PsegSuccess && psegment.blkcnt < old(psegment.blkcnt)
    ensures AllValid(psegment.segment, psegment.Rest().0) && psegment.Rest().1 == old(psegment.Rest().1)
    ensures old(PsegsBlocks(psegment.segment, psegment.Rest().0)) ==
            Join(blocks, PsegsBlocks(psegment.segment, psegment.Rest().0))
    ensures ok ==> blocks.Some? && Collected(vdescv, bdescv, blocks.value)
  {
    hide AllValid, ValidPseg, PsegBlocks, PsegsBlocks, Bdescs, Vdescs, PsegmentIterator.Valid, PsegmentIterator.Rest;
    var p := psegment.Current();
    psegment.Next();
    PsegsBlocksCons(psegment.segment, p, psegment.Rest().0);
    blocks := PsegBlocks(psegment.segment, p);
    ok := AccBlocksPsegment(psegment.segment, p, vdescv, bdescv);
  }

  lemma {:induction false} SegmentPlan(seg: Segment, nblocks: nat)
    requires ValidSegment(seg)
    ensures AllValid(seg, LogsOf(seg, nblocks).0)
    ensures LogsOf(seg, nblocks).1 == PsegSuccess ==>
            SegmentBlocks(seg, nblocks) == PsegsBlocks(seg, LogsOf(seg, nblocks).0)
    ensures LogsOf(seg, nblocks) == Psegs(seg, 0, seg.blocknr, if nblocks < seg.nblocks then nblocks else seg.nblocks)
    ensures AllValid(seg, []) && PsegsBlocks(seg, []) == Some([])
  {
    PsegsValid(seg, 0, seg.blocknr, if nblocks < seg.nblocks then nblocks else seg.nblocks);
  }

  /** nilfs_acc_blocks_segment */
  method AccBlocksSegment(segment: Segment, nblocks: nat, vdescv: Vector<Vdesc>, bdescv: Vector<Bdesc>)
    returns (ok: bool)
    requires ValidSegment(segment)
    requires vdescv.Valid() && bdescv.Valid()
    modifies vdescv, vdescv.data, bdescv, bdescv.data
    ensures vdescv.Valid() && (fresh(vdescv.data) || vdescv.data == old(vdescv.data))
    ensures bdescv.Valid() && (fresh(bdescv.data) || bdescv.data == old(bdescv.data))
    ensures ok ==> SegmentBlocks(segment, nblocks).Some? && Collected(vdescv, bdescv,
        SegmentBlocks(segment, nblocks).value)
  {
    hide AllValid, ValidSegment, Bdescs, Vdescs, PsegsBlocks, SegmentBlocks, LogsOf,
         PsegmentIterator.Valid, PsegmentIterator.Ready, PsegmentIterator.Rest, Join, Psegs, Vector.Valid,
           Vector.Contents;
    SegmentPlan(segment, nblocks);
    ghost var (psegs, error) := LogsOf(segment, nblocks);
    ghost var done: seq<Block> := [];
    NoDescs();
    var psegment := new PsegmentIterator(segment, nblocks);
    JoinFacts(None, None, PsegsBlocks(segment, psegs));
    var end := psegment.IsEnd();
    while !end
      invariant psegment.Valid() && fresh(psegment) && psegment.segment == segment
      invariant vdescv.Valid() && (fresh(vdescv.data) || vdescv.data == old(vdescv.data))
      invariant bdescv.Valid() && (fresh(bdescv.data) || bdescv.data == old(bdescv.data))
      invariant AllValid(segment, psegment.Rest().0) && psegment.Rest().1 == error
      invariant PsegsBlocks(segment, psegs) == Join(Some(done), PsegsBlocks(segment, psegment.Rest().0))
      invariant Collected(vdescv, bdescv, done)
      invariant if end then psegment.Rest() == ([], psegment.error) else psegment.Ready()
      decreases psegment.blkcnt, !end
    {
      ghost var blocks;
      ok, blocks := AccNextPsegment(psegment, vdescv, bdescv);
      if !ok {
        return;
      }
      DescsConcat(done, blocks.value);
      JoinFacts(Some(done), blocks, PsegsBlocks(segment, psegment.Rest().0));
      done := done + blocks.value;
      end := psegment.IsEnd();
    }
    JoinFacts(Some(done), None, None);
    return psegment.error == PsegSuccess;
  }

  // ----- block numbers -----

  /** Block numbers rise strictly within bounds. */
  ghost predicate Rising(blocks: seq<Block>, lo: nat, hi: nat) {
    && (forall i :: 0 <= i < |blocks| ==> lo <= blocks[i].blocknr < hi)
    && (forall i, j :: 0 <= i < j < |blocks| ==> blocks[i].blocknr < blocks[j].blocknr)
  }

  lemma {:induction false} RisingConcat(a: seq<Block>, b: seq<Block>, lo: nat, mid: nat, hi: nat)
    requires lo <= mid <= hi && Rising(a, lo, mid) && Rising(b, mid, hi)
    ensures Rising(a + b, lo, hi)
  {
  }

  lemma {:induction false} RisingCount(blocks: seq<Block>, lo: nat, hi: nat)
    requires lo <= hi && Rising(blocks, lo, hi)
    ensures |blocks| <= hi - lo
    decreases |blocks|
  {
    if blocks != [] {
      var last := |blocks| - 1;
      assert Rising(blocks[..last], lo, blocks[last].blocknr);
      RisingCount(blocks[..last], lo, blocks[last].blocknr);
    }
  }

  lemma {:induction false} FilesRise(seg: Segment, p: Pseg, index: nat, offset: nat, blocknr: nat)
    requires ValidPseg(seg, p) && FirstBlock(seg, p) <= blocknr <= p.blocknr + p.header.nblocks
    ensures AllGood(seg, p, Files(seg, p, index, offset, blocknr).0)
    ensures Rising(FilesBlocks(seg, p, Files(seg, p, index, offset, blocknr).0), blocknr, p.blocknr + p.header.nblocks)
    decreases p.header.nfinfo - index
  {
    hide GoodFile, AllGood, FilesBlocks, FileBlocks, SumLength, FileInfoSize, FileAt, Files, Rising, CheckFile;
    FilesGood(seg, p, index, offset, blocknr);
    if index < p.header.nfinfo && CheckFile(seg, p, offset, blocknr) == FileSuccess {
      FilesStep(seg, p, index, offset, blocknr);
      var f := FileAt(seg, p, offset, blocknr);
      var place := Place(seg.bs, offset + SumLength(seg, p, offset), FINFO_SIZE);
      var rest := Files(seg, p, index + 1, place, blocknr + f.finfo.nblocks).0;
      FilesRiseStep(seg, p, f, rest);
      FilesRise(seg, p, index + 1, place, blocknr + f.finfo.nblocks);
    } else {
      FilesStop(seg, p, index, offset, blocknr);
      FilesBlocksNil(seg, p);
      NothingRises(blocknr, p.blocknr + p.header.nblocks);
    }
  }

  lemma {:induction false} NothingRises(lo: nat, hi: nat)
    ensures Rising([], lo, hi)
  {
  }

  lemma {:induction false} FilesRiseStep(seg: Segment, p: Pseg, f: File, rest: seq<File>)
    requires AllGood(seg, p, [f] + rest)
    ensures f.blocknr + f.finfo.nblocks <= p.blocknr + p.header.nblocks
    ensures AllGood(seg, p, rest)
    ensures Rising(FilesBlocks(seg, p, rest), f.blocknr + f.finfo.nblocks, p.blocknr + p.header.nblocks) ==>
              Rising(FilesBlocks(seg, p, [f] + rest), f.blocknr, p.blocknr + p.header.nblocks)
  {
    FilesBlocksCons(seg, p, f, rest);
    var mine := FileBlocks(seg, p, f, f.finfo.nblocks);
    assert f.blocknr + f.finfo.nblocks <= p.blocknr + p.header.nblocks;
    hide GoodFile, AllGood, FilesBlocks, FileBlocks;
    assert Rising(mine, f.blocknr, f.blocknr + f.finfo.nblocks);
    if Rising(FilesBlocks(seg, p, rest), f.blocknr + f.finfo.nblocks, p.blocknr + p.header.nblocks) {
      RisingConcat(mine, FilesBlocks(seg, p, rest), f.blocknr, f.blocknr + f.finfo.nblocks,
                   p.blocknr + p.header.nblocks);
    }
  }

  lemma {:induction false} PsegRises(seg: Segment, p: Pseg)
    requires ValidPseg(seg, p) && PsegBlocks(seg, p).Some?
    ensures Rising(PsegBlocks(seg, p).value, p.blocknr, p.blocknr + p.header.nblocks)
  {
    hide FilesBlocks, Files;
    FilesRise(seg, p, 0, FirstOffset(seg, p), FirstBlock(seg, p));
    PsegPlan(seg, p);
  }

  lemma {:induction false} PsegsRise(seg: Segment, segsum: nat, blocknr: nat, blkcnt: nat)
    requires ValidSegment(seg) && PsegPosition(seg, segsum, blocknr, blkcnt)
    ensures var psegs := Psegs(seg, segsum, blocknr, blkcnt).0;
            && AllValid(seg, psegs)
            && (PsegsBlocks(seg, psegs).Some? ==>
                Rising(PsegsBlocks(seg, psegs).value, blocknr, seg.blocknr + seg.nblocks))
    decreases blkcnt
  {
    hide AllValid, PsegsBlocks, Rising, CheckPseg, ReadSegsum, ValidSegment, PsegPosition, Psegs;
    PsegsValid(seg, segsum, blocknr, blkcnt);
    NothingRises(blocknr, seg.blocknr + seg.nblocks);
    NoPsegs(seg);
    SegmentSized(seg);
    if blkcnt >= PSEG_MIN_BLOCKS {
      HeaderReadable(seg, segsum, blocknr, blkcnt);
    }
    if blkcnt >= PSEG_MIN_BLOCKS && CheckPseg(seg, segsum, blocknr).0 {
      PsegsStep(seg, segsum, blocknr, blkcnt);
      var h := ReadSegsum(seg.addr, segsum);
      var left := if blkcnt >= h.nblocks then blkcnt - h.nblocks else 0;
      PsegsRise(seg, segsum + h.nblocks * seg.bs, blocknr + h.nblocks, left);
      PsegsRiseStep(seg, Pseg(segsum, blocknr, h),
                    Psegs(seg, segsum + h.nblocks * seg.bs, blocknr + h.nblocks, left).0);
    } else {
      PsegsStop(seg, segsum, blocknr, blkcnt);
    }
  }

  lemma {:induction false} NoPsegs(seg: Segment)
    ensures AllValid(seg, []) && PsegsBlocks(seg, []) == Some([])
  {
  }

  lemma {:induction false} PsegsRiseStep(seg: Segment, p: Pseg, rest: seq<Pseg>)
    requires AllValid(seg, [p] + rest) && AllValid(seg, rest)
    requires PsegsBlocks(seg, rest).Some? ==>
               Rising(PsegsBlocks(seg, rest).value, p.blocknr + p.header.nblocks, seg.blocknr + seg.nblocks)
    ensures PsegsBlocks(seg, [p] + rest).Some? ==>
              Rising(PsegsBlocks(seg, [p] + rest).value, p.blocknr, seg.blocknr + seg.nblocks)
  {
    PsegsBlocksCons(seg, p, rest);
    assert ValidPseg(seg, p) && p.blocknr + p.header.nblocks <= seg.blocknr + seg.nblocks;
    hide AllValid, ValidPseg, PsegsBlocks, PsegBlocks;
    if PsegsBlocks(seg, [p] + rest).Some? {
      PsegRises(seg, p);
      RisingConcat(PsegBlocks(seg, p).value, PsegsBlocks(seg, rest).value,
                   p.blocknr, p.blocknr + p.header.nblocks, seg.blocknr + seg.nblocks);
    }
  }

  /**
   The blocks collected from a segment, whatever bytes it holds, have strictly rising numbers within
   the segment; so none is collected twice, and there are no more of them than the segment has.
   */
  lemma {:induction false} SegmentBlocksDistinct(seg: Segment, nblocks: nat)
    requires ValidSegment(seg) && SegmentBlocks(seg, nblocks).Some?
    ensures Rising(SegmentBlocks(seg, nblocks).value, seg.blocknr, seg.blocknr + seg.nblocks)
    ensures |Vdescs(SegmentBlocks(seg, nblocks).value)| + |Bdescs(SegmentBlocks(seg, nblocks).value)| <= seg.nblocks
  {
    PsegsRise(seg, 0, seg.blocknr, if nblocks < seg.nblocks then nblocks else seg.nblocks);
    RisingCount(SegmentBlocks(seg, nblocks).value, seg.blocknr, seg.blocknr + seg.nblocks);
  }
}
