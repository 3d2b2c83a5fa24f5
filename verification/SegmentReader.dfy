/**
 The three nested iterators over a segment: logs (partial segments), the files of a log, and the
 blocks of a file.  Pointers into the segment are byte offsets from its start.
 */
module SegmentReader {
  import opened Wrappers
  import opened Arithmetic
  import opened Layout
  import opened Bytes
  import opened SegmentFormat
  import Crc32

  /** struct nilfs_segment, with the block size instead of its shift */
  datatype Segment = Segment(addr: seq<Byte>, segnum: nat, seqnum: nat, blocknr: nat, nblocks: nat, bs: nat, seed: bv32)

  ghost predicate ValidSegment(seg: Segment) {
    BlockSize(seg.bs) && seg.bs >= 1024 && |seg.addr| == seg.nblocks * seg.bs
  }

  function ToBits(bytes: seq<Byte>): (bits: seq<bv8>)
    ensures |bits| == |bytes|
  {
    seq(|bytes|, i requires 0 <= i < |bytes| => bytes[i] as bv8)
  }

  function ChecksumWord(seed: bv32, bytes: seq<Byte>): bv32 {
    Crc32.Bitwise(seed, ToBits(bytes), |bytes|)
  }

  function ToNat(word: bv32): (n: nat)
    ensures n < 0x1_0000_0000
  {
    word as nat
  }

  lemma {:induction false} ToNatInjective(a: bv32, b: bv32)
    ensures ToNat(a) == ToNat(b) <==> a == b
  {
    if ToNat(a) == ToNat(b) {
      assert (a as nat) as bv32 == a;
      assert (b as nat) as bv32 == b;
    }
  }

  function Checksum(seed: bv32, bytes: seq<Byte>): (sum: nat)
    ensures sum < 0x1_0000_0000
  {
    ToNat(ChecksumWord(seed, bytes))
  }

  function RoundUpBlocks(bs: nat, bytes: nat): nat
    requires bs > 0
  {
    (bytes + bs - 1) / bs
  }

  /** The fields of the superblock that place a segment. */
  datatype Superblock = Superblock(bs: nat, nsegments: nat, perSegment: nat, firstDataBlock: nat, seed: bv32)

  /** Where a segment starts; the first one leaves room for the superblock. */
  function SegmentStart(sb: Superblock, segnum: nat): (start: nat) {
    if segnum == 0 then sb.firstDataBlock
    else
      MulNat(sb.perSegment, segnum);
      sb.perSegment * segnum
  }

  /** Segments follow each other without overlap, up to the end of the device. */
  lemma {:induction false} SegmentPlace(sb: Superblock, segnum: nat)
    requires segnum < sb.nsegments && (segnum == 0 ==> sb.firstDataBlock < sb.perSegment)
    ensures SegmentStart(sb, segnum) <= sb.perSegment * (segnum + 1) <= sb.nsegments * sb.perSegment
    ensures SegmentStart(sb, segnum + 1) == sb.perSegment * (segnum + 1)
    ensures segnum > 0 ==> SegmentStart(sb, segnum) + sb.perSegment == SegmentStart(sb, segnum + 1)
  {
    Distribute(sb.perSegment, segnum, 1);
    MulMonotone(sb.perSegment, segnum + 1, sb.nsegments);
    MulNat(sb.perSegment, segnum);
  }

  function BlockOffset(bs: nat, blocknr: nat): (at: nat)
    ensures at == blocknr * bs
  {
    MulNat(blocknr, bs);
    blocknr * bs
  }

  /** The bytes that are shown of a segment from byte lo to hi, when its address lies `shift` bytes too low. */
  function Shown(device: seq<Byte>, lo: nat, hi: nat, shift: nat): (bytes: seq<Byte>)
    requires shift <= lo <= hi <= |device|
    ensures |bytes| == hi - lo
  {
    device[lo - shift..hi - shift]
  }

  /** They are those of the segment, whatever the device holds, just when the address is right. */
  lemma {:induction false} ShownExactly(lo: nat, hi: nat, shift: nat)
    requires shift <= lo < hi
    ensures (forall device: seq<Byte> :: |device| == hi ==> Shown(device, lo, hi, shift) == device[lo..hi]) <==>
            shift == 0
  {
    if shift > 0 {
      var device: seq<Byte> := seq(hi, i => if i < lo then 0 else 1);
      assert Shown(device, lo, hi, shift)[0] == 0 && device[lo..hi][0] == 1;
    }
  }

  /** How far below the segment a mapping starts. */
  function PageOffset(mapped: bool, pagesize: int, at: nat): (offset: nat)
    ensures offset <= at
    ensures mapped && pagesize > 0 ==> offset == at % pagesize
    ensures !mapped ==> offset == 0
  {
    if mapped && pagesize > 0 then
      ModBound(at, pagesize);
      at % pagesize
    else 0
  }

  /** The segment shows the device from `shift` bytes below its start on. */
  ghost predicate Shows(seg: Segment, device: seq<Byte>, shift: nat) {
    var lo, hi := BlockOffset(seg.bs, seg.blocknr), BlockOffset(seg.bs, seg.blocknr + seg.nblocks);
    shift <= lo <= hi <= |device| && seg.addr == Shown(device, lo, hi, shift)
  }

  /**
   nilfs_get_segment on a device that holds all segments; it also fails when mapping or reading fails.
   A mapping starts at a page boundary, and the address of the segment is that of the mapping.
   */
  method GetSegment(device: seq<Byte>, sb: Superblock, segnum: nat, pagesize: int, useMmap: bool)
    returns (r: Option<Segment>, mapped: bool)
    requires BlockSize(sb.bs) && sb.bs >= 1024
    requires sb.nsegments * sb.perSegment * sb.bs <= |device|
    ensures mapped ==> useMmap
    ensures r.Some? ==> pagesize > 0 && segnum < sb.nsegments && sb.perSegment >= SEG_MIN_BLOCKS
    ensures r.Some? ==> ValidSegment(r.value) && r.value.segnum == segnum
    ensures r.Some? ==> r.value.bs == sb.bs && r.value.seed == sb.seed
    ensures r.Some? ==> r.value.blocknr == SegmentStart(sb, segnum) <= SegmentStart(sb, segnum + 1)
    ensures r.Some? ==> r.value.blocknr + r.value.nblocks == SegmentStart(sb, segnum + 1)
    ensures r.Some? ==> Shows(r.value, device, PageOffset(mapped, pagesize, BlockOffset(sb.bs, r.value.blocknr)))
  {
    hide BlockSize, Le, PageOffset;
    mapped := false;
    if pagesize <= 0 || segnum >= sb.nsegments || sb.perSegment < SEG_MIN_BLOCKS {
      return None, false;
    }
    if segnum == 0 && sb.firstDataBlock >= sb.perSegment {
      return None, false;
    }
    SegmentPlace(sb, segnum);
    var start := SegmentStart(sb, segnum);
    var nblocks := if segnum == 0 then sb.perSegment - start else sb.perSegment;
    MulMonotone(sb.bs, start, start + nblocks);
    MulMonotone(sb.bs, start + nblocks, sb.nsegments * sb.perSegment);
    Distribute(sb.bs, start, nblocks);
    MulMonotone(sb.bs, 1, nblocks);
    var lo, hi := BlockOffset(sb.bs, start), BlockOffset(sb.bs, start + nblocks);
    var addr := device[lo..hi];
    if useMmap {
      mapped := *;
      if mapped {
        addr := Shown(device, lo, hi, PageOffset(true, pagesize, lo));
      }
    }
    if * {
      return None, false;  // mapping, memory or reading failed
    }
    r := Some(Segment(addr, segnum, Le(addr, 16, 8), start, nblocks, sb.bs, sb.seed));
  }

  // ----- logs -----

  datatype PsegError = PsegSuccess | BadAlignment | BigPseg | BigHeader | BigSummary

  /** A log: where its summary starts, its first block, and its header. */
  datatype Pseg = Pseg(segsum: nat, blocknr: nat, header: Segsum)

  /** A position of the log iterator. */
  ghost predicate PsegPosition(seg: Segment, segsum: nat, blocknr: nat, blkcnt: nat) {
    && seg.blocknr <= blocknr
    && segsum == (blocknr - seg.blocknr) * seg.bs
    && blocknr + blkcnt <= seg.blocknr + seg.nblocks
  }

  lemma {:induction false} HeaderReadable(seg: Segment, segsum: nat, blocknr: nat, blkcnt: nat)
    requires ValidSegment(seg) && PsegPosition(seg, segsum, blocknr, blkcnt) && blkcnt >= 1
    ensures segsum + SEGSUM_SIZE <= segsum + seg.bs <= |seg.addr|
  {
    MulMonotone(seg.bs, blocknr - seg.blocknr + 1, seg.nblocks);
    Distribute(seg.bs, blocknr - seg.blocknr, 1);
  }

  /** nilfs_psegment_is_valid */
  function CheckPseg(seg: Segment, segsum: nat, blocknr: nat): (check: (bool, PsegError))
    requires segsum + SEGSUM_SIZE <= |seg.addr| && seg.bs > 0
    ensures check.1 != PsegSuccess ==> !check.0
  {
    var h := ReadSegsum(seg.addr, segsum);
    if h.magic != SEGSUM_MAGIC then (false, PsegSuccess)
    else if h.sumbytes < SUMSUM_END || segsum + h.sumbytes >= |seg.addr| then (false, PsegSuccess)
    else if h.sumsum != Checksum(seg.seed, seg.addr[segsum + SUMSUM_END..segsum + h.sumbytes]) then (false, PsegSuccess)
    else if h.bytes % 8 != 0 then (false, BadAlignment)
    else if blocknr + h.nblocks > seg.blocknr + seg.nblocks then (false, BigPseg)
    else if h.bytes > h.sumbytes then (false, BigHeader)
    else if RoundUpBlocks(seg.bs, h.sumbytes) >= h.nblocks then (false, BigSummary)
    else (true, PsegSuccess)
  }

  /** The logs that the iterator yields from a position on, and the error it ends with. */
  function Psegs(seg: Segment, segsum: nat, blocknr: nat, blkcnt: nat): (seq<Pseg>, PsegError)
    requires ValidSegment(seg) && PsegPosition(seg, segsum, blocknr, blkcnt)
    decreases blkcnt
  {
    if blkcnt < PSEG_MIN_BLOCKS then ([], PsegSuccess)
    else
      HeaderReadable(seg, segsum, blocknr, blkcnt);
      var check := CheckPseg(seg, segsum, blocknr);
      if !check.0 then ([], check.1)
      else
        var h := ReadSegsum(seg.addr, segsum);
        SkipPseg(seg, segsum, blocknr, h.nblocks);
        var rest := Psegs(seg, segsum + h.nblocks * seg.bs, blocknr + h.nblocks,
                          if blkcnt >= h.nblocks then blkcnt - h.nblocks else 0);
        ([Pseg(segsum, blocknr, h)] + rest.0, rest.1)
  }

  lemma {:induction false} PsegsStop(seg: Segment, segsum: nat, blocknr: nat, blkcnt: nat)
    requires ValidSegment(seg) && PsegPosition(seg, segsum, blocknr, blkcnt)
    requires blkcnt >= PSEG_MIN_BLOCKS ==> segsum + SEGSUM_SIZE <= |seg.addr| && !CheckPseg(seg, segsum, blocknr).0
    ensures Psegs(seg, segsum, blocknr, blkcnt).0 == []
  {
  }

  lemma {:induction false} PsegsStep(seg: Segment, segsum: nat, blocknr: nat, blkcnt: nat)
    requires ValidSegment(seg) && PsegPosition(seg, segsum, blocknr, blkcnt)
    requires blkcnt >= PSEG_MIN_BLOCKS && segsum + SEGSUM_SIZE <= |seg.addr| && CheckPseg(seg, segsum, blocknr).0
    ensures var h := ReadSegsum(seg.addr, segsum);
            var left := if blkcnt >= h.nblocks then blkcnt - h.nblocks else 0;
            && h.nblocks * seg.bs >= 0 && left < blkcnt
            && PsegPosition(seg, segsum + h.nblocks * seg.bs, blocknr + h.nblocks, left)
            && Psegs(seg, segsum, blocknr, blkcnt).0 ==
               [Pseg(segsum, blocknr, h)] + Psegs(seg, segsum + h.nblocks * seg.bs, blocknr + h.nblocks, left).0
  {
    hide ReadSegsum, ValidSegment, Checksum;
    SkipPseg(seg, segsum, blocknr, ReadSegsum(seg.addr, segsum).nblocks);
  }

  lemma {:induction false} SkipPseg(seg: Segment, segsum: nat, blocknr: nat, nblocks: nat)
    requires seg.blocknr <= blocknr && segsum == (blocknr - seg.blocknr) * seg.bs
    ensures nblocks * seg.bs >= 0
    ensures segsum + nblocks * seg.bs == (blocknr + nblocks - seg.blocknr) * seg.bs
  {
    MulNat(nblocks, seg.bs);
    Distribute(seg.bs, blocknr - seg.blocknr, nblocks);
  }

  /** struct nilfs_psegment */
  class PsegmentIterator {
    const segment: Segment
    var segsum: nat
    var blocknr: nat
    var blkcnt: nat
    var error: PsegError

    ghost predicate Valid()
      reads this
    {
      ValidSegment(segment) && PsegPosition(segment, segsum, blocknr, blkcnt)
    }

    /** The logs still to come. */
    ghost function Rest(): (seq<Pseg>, PsegError)
      reads this
      requires Valid()
    {
      Psegs(segment, segsum, blocknr, blkcnt)
    }

    function Current(): Pseg
      reads this
      requires Ready()
    {
      Pseg(segsum, blocknr, ReadSegsum(segment.addr, segsum))
    }

    /** The iterator stands on a valid log. */
    ghost predicate Ready()
      reads this
    {
      && Valid() && error == PsegSuccess
      && blkcnt >= PSEG_MIN_BLOCKS && segsum + SEGSUM_SIZE <= |segment.addr|
      && CheckPseg(segment, segsum, blocknr).0
    }

    /** nilfs_psegment_init */
    constructor (segment: Segment, blkcnt: nat)
      requires ValidSegment(segment)
      ensures Valid() && this.segment == segment && error == PsegSuccess
      ensures Rest() == Psegs(segment, 0, segment.blocknr, if blkcnt < segment.nblocks then blkcnt else segment.nblocks)
    {
      this.segment := segment;
      segsum, blocknr := 0, segment.blocknr;
      this.blkcnt := if blkcnt < segment.nblocks then blkcnt else segment.nblocks;
      error := PsegSuccess;
    }

    /** nilfs_psegment_is_end */
    method IsEnd() returns (end: bool)
      requires Valid() && error == PsegSuccess
      modifies `error
      ensures Valid() && Rest() == old(Rest())
      ensures end ==> Rest() == ([], error)
      ensures !end ==> Ready()
    {
      if blkcnt < PSEG_MIN_BLOCKS {
        return true;
      }
      HeaderReadable(segment, segsum, blocknr, blkcnt);
      var (valid, e) := CheckPseg(segment, segsum, blocknr);
      error := e;
      return !valid;
    }

    /** nilfs_psegment_next */
    method Next()
      requires Ready()
      modifies `segsum, `blocknr, `blkcnt
      ensures Valid() && error == PsegSuccess
      ensures old(Rest()) == ([old(Current())] + Rest().0, Rest().1)
      ensures blkcnt < old(blkcnt)
      ensures blocknr == old(blocknr) + Le(segment.addr, old(segsum) + 40, 4)
      ensures segsum == (blocknr - segment.blocknr) * segment.bs
      ensures old(blkcnt) == blkcnt + (blocknr - old(blocknr)) || (blkcnt == 0 && old(blkcnt) < blocknr - old(blocknr))
    {
      hide BlockSize, ReadSegsum;
      NumberOfBlocks(segment.addr, segsum);
      var nblocks := ReadSegsum(segment.addr, segsum).nblocks;
      SkipPseg(segment, segsum, blocknr, nblocks);
      segsum := segsum + nblocks * segment.bs;
      blkcnt := if blkcnt >= nblocks then blkcnt - nblocks else 0;
      blocknr := blocknr + nblocks;
    }
  }

  lemma {:induction false} NumberOfBlocks(buf: seq<Byte>, at: nat)
    requires at + SEGSUM_SIZE <= |buf|
    ensures ReadSegsum(buf, at).nblocks == Le(buf, at + 40, 4)
  {
  }

  // ----- files -----

  datatype FileError = FileSuccess | ManyBlocks | BlockCount | Overrun

  /** A file of a log: the offset of its finfo in the summary, its first block, and the finfo. */
  datatype File = File(offset: nat, blocknr: nat, finfo: Finfo, useReal: bool)

  /** A log whose summary lies within the segment. */
  ghost predicate ValidPseg(seg: Segment, p: Pseg) {
    && ValidSegment(seg)
    && seg.blocknr <= p.blocknr && p.blocknr + p.header.nblocks <= seg.blocknr + seg.nblocks
    && p.segsum + p.header.sumbytes < |seg.addr|
    && RoundUpBlocks(seg.bs, p.header.sumbytes) < p.header.nblocks
  }

  function FileAt(seg: Segment, p: Pseg, offset: nat, blocknr: nat): File
    requires p.segsum + offset + FINFO_SIZE <= |seg.addr|
  {
    var fi := ReadFinfo(seg.addr, p.segsum + offset);
    File(offset, blocknr, fi, fi.ino == DAT_INO)
  }

  /** The length that the iterator computes on arriving at `offset`. */
  function SumLength(seg: Segment, p: Pseg, offset: nat): int
    requires ValidPseg(seg, p)
  {
    if offset + FINFO_SIZE > p.header.sumbytes then FINFO_SIZE
    else
      var f := FileAt(seg, p, offset, 0);
      FileInfoSize(seg.bs, offset, f.useReal, f.finfo)
  }

  /** nilfs_file_is_valid */
  function CheckFile(seg: Segment, p: Pseg, offset: nat, blocknr: nat): FileError
    requires ValidPseg(seg, p) && p.blocknr <= blocknr
  {
    if offset + SumLength(seg, p, offset) > p.header.sumbytes then Overrun
    else
      LengthReadable(seg, p, offset);
      var fi := FileAt(seg, p, offset, blocknr).finfo;
      if blocknr - p.blocknr + fi.nblocks > p.header.nblocks then ManyBlocks
      else if fi.ndatablk > fi.nblocks then BlockCount
      else FileSuccess
  }

  /** A file that ends within the summary has its finfo there. */
  lemma {:induction false} LengthReadable(seg: Segment, p: Pseg, offset: nat)
    requires ValidPseg(seg, p)
    requires offset + SumLength(seg, p, offset) <= p.header.sumbytes
    ensures offset + FINFO_SIZE <= p.header.sumbytes
  {
  }

  /** The files that the iterator yields from a position on, and the error it ends with. */
  function Files(seg: Segment, p: Pseg, index: nat, offset: nat, blocknr: nat): (files: (seq<File>, FileError))
    requires ValidPseg(seg, p) && p.blocknr <= blocknr
    decreases p.header.nfinfo - index
  {
    if index >= p.header.nfinfo then ([], FileSuccess)
    else
      var e := CheckFile(seg, p, offset, blocknr);
      if e != FileSuccess then ([], e)
      else
        LengthReadable(seg, p, offset);
        var f := FileAt(seg, p, offset, blocknr);
        var end := offset + SumLength(seg, p, offset);
        LengthNat(seg, p, offset);
        var rest := Files(seg, p, index + 1, Place(seg.bs, end, FINFO_SIZE), blocknr + f.finfo.nblocks);
        ([f] + rest.0, rest.1)
  }

  lemma {:induction false} LengthNat(seg: Segment, p: Pseg, offset: nat)
    requires ValidPseg(seg, p)
    ensures SumLength(seg, p, offset) >= FINFO_SIZE
  {
    if offset + FINFO_SIZE <= p.header.sumbytes {
      var f := FileAt(seg, p, offset, 0);
      InfoSizeNat(seg.bs, offset, f.useReal, f.finfo);
    }
  }

  lemma {:induction false} InfoSizeNat(bs: nat, offset: nat, useReal: bool, fi: Finfo)
    requires bs >= 1024
    ensures FileInfoSize(bs, offset, useReal, fi) >= FINFO_SIZE
  {
    TotalNat(offset + FINFO_SIZE, bs, DataSize(useReal), fi.ndatablk);
    var dataLen := BinfoTotalSize(offset + FINFO_SIZE, bs, DataSize(useReal), fi.ndatablk);
    TotalNat(offset + FINFO_SIZE + dataLen, bs, NodeSize(useReal),
             if fi.ndatablk <= fi.nblocks then fi.nblocks - fi.ndatablk else 0);
  }

  lemma {:induction false} FilesStep(seg: Segment, p: Pseg, index: nat, offset: nat, blocknr: nat)
    requires ValidPseg(seg, p) && p.blocknr <= blocknr && index < p.header.nfinfo
    requires CheckFile(seg, p, offset, blocknr) == FileSuccess
    ensures offset + FINFO_SIZE <= p.header.sumbytes && SumLength(seg, p, offset) >= FINFO_SIZE && seg.bs > 0
    ensures FileAt(seg, p, offset, blocknr).blocknr == blocknr
    ensures var f := FileAt(seg, p, offset, blocknr);
            var rest := Files(seg, p, index + 1, Place(seg.bs, offset + SumLength(seg, p, offset), FINFO_SIZE),
                              blocknr + f.finfo.nblocks);
            Files(seg, p, index, offset, blocknr) == ([f] + rest.0, rest.1)
  {
    LengthReadable(seg, p, offset);
    LengthNat(seg, p, offset);
  }

  lemma {:induction false} FilesStop(seg: Segment, p: Pseg, index: nat, offset: nat, blocknr: nat)
    requires ValidPseg(seg, p) && p.blocknr <= blocknr
    requires index >= p.header.nfinfo || CheckFile(seg, p, offset, blocknr) != FileSuccess
    ensures Files(seg, p, index, offset, blocknr).0 == []
  {
  }

  /** Where the file iterator starts. */
  function FirstOffset(seg: Segment, p: Pseg): nat
    requires seg.bs > 0
  {
    Place(seg.bs, p.header.bytes, FINFO_SIZE)
  }

  function FirstBlock(seg: Segment, p: Pseg): nat
    requires seg.bs > 0
  {
    p.blocknr + RoundUpBlocks(seg.bs, p.header.sumbytes)
  }

  /** All files of a log. */
  function FilesOf(seg: Segment, p: Pseg): (seq<File>, FileError)
    requires ValidPseg(seg, p)
  {
    Files(seg, p, 0, FirstOffset(seg, p), FirstBlock(seg, p))
  }

  /** struct nilfs_file */
  class FileIterator {
    const segment: Segment
    const psegment: Pseg
    var finfo: nat     // pointer to the finfo
    var blocknr: nat
    var offset: nat
    var index: nat
    var sumlen: int
    var error: FileError
    var useReal: bool

    ghost predicate Valid()
      reads this
    {
      && ValidPseg(segment, psegment) && psegment.blocknr <= blocknr
      && finfo == psegment.segsum + offset
      && sumlen == SumLength(segment, psegment, offset)
      && (offset + FINFO_SIZE <= psegment.header.sumbytes ==>
            useReal == FileAt(segment, psegment, offset, blocknr).useReal)
    }

    /** The files still to come. */
    ghost function Rest(): (seq<File>, FileError)
      reads this
      requires Valid()
    {
      Files(segment, psegment, index, offset, blocknr)
    }

    function Current(): File
      reads this
      requires Ready()
    {
      File(offset, blocknr, ReadFinfo(segment.addr, finfo), useReal)
    }

    /** The iterator stands on a valid file. */
    ghost predicate Ready()
      reads this
    {
      && Valid() && error == FileSuccess
      && index < psegment.header.nfinfo && finfo + FINFO_SIZE <= |segment.addr|
      && CheckFile(segment, psegment, offset, blocknr) == FileSuccess
    }

    /** nilfs_file_init */
    constructor (segment: Segment, psegment: Pseg)
      requires ValidPseg(segment, psegment)
      ensures Valid() && this.segment == segment && this.psegment == psegment && error == FileSuccess
      ensures Rest() == FilesOf(segment, psegment)
    {
      hide BlockSize, Place, SumLength, Files;
      this.segment, this.psegment := segment, psegment;
      blocknr := psegment.blocknr + (psegment.header.sumbytes + segment.bs - 1) / segment.bs;
      index := 0;
      offset := psegment.header.bytes;
      finfo := psegment.segsum + psegment.header.bytes;
      useReal, sumlen := false, 0;
      error := FileSuccess;
      new;
      AdjustFinfoPosition(segment.bs);
      InitFromFinfo();
    }

    /** nilfs_file_adjust_finfo_position */
    method AdjustFinfoPosition(blksize: nat)
      requires blksize > 0 && finfo == psegment.segsum + offset
      modifies `finfo, `offset
      ensures finfo == psegment.segsum + offset && offset == Place(blksize, old(offset), FINFO_SIZE)
    {
      var rest := blksize - offset % blksize;
      if FINFO_SIZE > rest {
        finfo := finfo + rest;
        offset := offset + rest;
      }
    }

    /** nilfs_file_init_from_finfo */
    method InitFromFinfo()
      requires ValidPseg(segment, psegment) && psegment.blocknr <= blocknr && finfo == psegment.segsum + offset
      modifies `sumlen, `useReal
      ensures Valid()
    {
      if offset + FINFO_SIZE > psegment.header.sumbytes {
        sumlen := FINFO_SIZE;
        return;
      }
      var fi := ReadFinfo(segment.addr, finfo);
      useReal := fi.ino == DAT_INO;
      sumlen := FileInfoSize(segment.bs, offset, useReal, fi);
    }

    /** nilfs_file_is_end */
    method IsEnd() returns (end: bool)
      requires Valid() && error == FileSuccess
      modifies `error
      ensures Valid() && Rest() == old(Rest())
      ensures end ==> Rest() == ([], error)
      ensures !end ==> Ready()
    {
      if index >= psegment.header.nfinfo {
        return true;
      }
      if offset + sumlen > psegment.header.sumbytes {
        error := Overrun;
        return true;
      }
      LengthReadable(segment, psegment, offset);
      var fi := ReadFinfo(segment.addr, finfo);
      if blocknr - psegment.blocknr + fi.nblocks > psegment.header.nblocks {
        error := ManyBlocks;
        return true;
      }
      if fi.ndatablk > fi.nblocks {
        error := BlockCount;
        return true;
      }
      return false;
    }

    /** nilfs_file_next */
    method Next()
      requires Ready()
      modifies this
      ensures Valid() && error == FileSuccess && index == old(index) + 1 <= psegment.header.nfinfo
      ensures old(Rest()) == ([old(Current())] + Rest().0, Rest().1)
      ensures blocknr == old(blocknr) + Le(segment.addr, old(finfo) + 16, 4)
      ensures finfo - old(finfo) == offset - old(offset) >= old(sumlen)
    {
      hide Files, FileInfoSize, CheckFile, SumLength, ReadFinfo, ValidPseg, Place, Le;
      BlocksOfFile(segment.addr, finfo);
      FilesStep(segment, psegment, index, offset, blocknr);
      ghost var f := FileAt(segment, psegment, offset, blocknr);
      assert f == Current();
      blocknr := blocknr + ReadFinfo(segment.addr, finfo).nblocks;
      offset := offset + sumlen;
      finfo := finfo + sumlen;
      AdjustFinfoPosition(segment.bs);
      InitFromFinfo();
      index := index + 1;
    }
  }

  lemma {:induction false} BlocksOfFile(buf: seq<Byte>, at: nat)
    requires at + FINFO_SIZE <= |buf|
    ensures ReadFinfo(buf, at).nblocks == Le(buf, at + 16, 4)
  {
  }
}
