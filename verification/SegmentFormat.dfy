/** The records of a segment summary and where they lie. */
module SegmentFormat {
  import opened Arithmetic
  import opened Layout
  import opened Bytes

  const SEGSUM_MAGIC: nat := 0x1EAFFA11
  const SEGSUM_SIZE: nat := 64    // struct nilfs_segment_summary
  const SUMSUM_END: nat := 8      // the end of ss_sumsum: the checksum covers what follows
  const FINFO_SIZE: nat := 24     // struct nilfs_finfo
  const DAT_INO: nat := 3
  const PSEG_MIN_BLOCKS: nat := 2
  const SEG_MIN_BLOCKS: nat := 16

  datatype Finfo = Finfo(ino: nat, cno: nat, nblocks: nat, ndatablk: nat)

  function ReadFinfo(buf: seq<Byte>, at: nat): Finfo
    requires at + FINFO_SIZE <= |buf|
  {
    Finfo(Le(buf, at, 8), Le(buf, at + 8, 8), Le(buf, at + 16, 4), Le(buf, at + 20, 4))
  }

  /** The fields of the summary header that the reader uses. */
  datatype Segsum = Segsum(sumsum: nat, magic: nat, bytes: nat, nblocks: nat, nfinfo: nat, sumbytes: nat)

  function ReadSegsum(buf: seq<Byte>, at: nat): Segsum
    requires at + SEGSUM_SIZE <= |buf|
  {
    Segsum(Le(buf, at + 4, 4), Le(buf, at + 8, 4), Le(buf, at + 12, 2),
           Le(buf, at + 40, 4), Le(buf, at + 44, 4), Le(buf, at + 48, 4))
  }

  /** Block information: of a file whose blocks go through the DAT, or of the DAT itself. */
  datatype Binfo =
    | Virtual(vblocknr: nat, blkoff: nat)
    | VirtualNode(vblocknr: nat)
    | Real(blkoff: nat)
    | RealNode(blkoff: nat, level: nat)

  function DataSize(useReal: bool): (size: nat)
    ensures size == 8 || size == 16
  {
    if useReal then 8 else 16
  }

  function NodeSize(useReal: bool): (size: nat)
    ensures size == 8 || size == 16
  {
    if useReal then 16 else 8
  }

  function BinfoSize(useReal: bool, fi: Finfo, i: nat): (size: nat)
    ensures size == 8 || size == 16
  {
    if i < fi.ndatablk then DataSize(useReal) else NodeSize(useReal)
  }

  function ReadBinfo(buf: seq<Byte>, at: nat, useReal: bool, data: bool): Binfo
    requires at + (if data then DataSize(useReal) else NodeSize(useReal)) <= |buf|
  {
    if useReal then
      if data then Real(Le(buf, at, 8)) else RealNode(Le(buf, at, 8), buf[at + 8])
    else
      if data then Virtual(Le(buf, at, 8), Le(buf, at + 8, 8)) else VirtualNode(Le(buf, at, 8))
  }

  // ----- the places of block information -----

  /** Where the first i binfos of the file whose finfo is at `offset` end. */
  function BinfoEnd(bs: nat, offset: nat, useReal: bool, fi: Finfo, i: nat): (end: nat)
    requires bs > 0
    ensures offset + FINFO_SIZE <= end
  {
    if i == 0 then offset + FINFO_SIZE
    else
      var size := BinfoSize(useReal, fi, i - 1);
      Place(bs, BinfoEnd(bs, offset, useReal, fi, i - 1), size) + size
  }

  /** Where the i-th binfo lies. */
  function BinfoAt(bs: nat, offset: nat, useReal: bool, fi: Finfo, i: nat): (at: nat)
    requires bs > 0
    ensures offset + FINFO_SIZE <= at
  {
    Place(bs, BinfoEnd(bs, offset, useReal, fi, i), BinfoSize(useReal, fi, i))
  }

  /** nilfs_file_info_size.  When a damaged finfo has more data blocks than blocks, no node is counted. */
  function FileInfoSize(bs: nat, offset: nat, useReal: bool, fi: Finfo): int
    requires bs >= 1024
  {
    var dataLen := BinfoTotalSize(offset + FINFO_SIZE, bs, DataSize(useReal), fi.ndatablk);
    TotalNat(offset + FINFO_SIZE, bs, DataSize(useReal), fi.ndatablk);
    var nodes := if fi.ndatablk <= fi.nblocks then fi.nblocks - fi.ndatablk else 0;
    FINFO_SIZE + dataLen + BinfoTotalSize(offset + FINFO_SIZE + dataLen, bs, NodeSize(useReal), nodes)
  }

  lemma {:induction false} TotalNat(offset: nat, bs: nat, size: nat, count: nat)
    requires 0 < size <= bs
    ensures BinfoTotalSize(offset, bs, size, count) >= 0
  {
    var rest := bs - offset % bs;
    MulNat(size, count);
    FitsByDivision(rest, size, count);
    if size * count > rest {
      DivPositive(bs, size);
      ProductsNat(count - rest / size, bs / size, bs, size);
    }
  }

  lemma {:induction false} ProductsNat(left: nat, per: nat, bs: nat, size: nat)
    requires per >= 1
    ensures left / per * bs >= 0 && left % per * size >= 0
  {
    var q, m := left / per, left % per;
    assert q >= 0 && m >= 0;
    MulNat(q, bs);
    MulNat(m, size);
  }

  /** With a record size that divides the block size, the closed form is always exact. */
  lemma {:induction false} TotalIsAdvance(bs: nat, offset: nat, size: nat, count: nat)
    requires BlockSize(bs) && (size == 8 || size == 16)
    ensures offset + BinfoTotalSize(offset, bs, size, count) == Advance(bs, offset, size, count)
    ensures IncrementSegsumSize(bs, offset, size, count) == Advance(bs, offset, size, count)
  {
    BlockSizeFacts(bs);
    ClosedFormsAgree(bs, offset, size, count);
    ClosedFormExact(bs, offset, size, count);
  }

  lemma {:induction false} BinfoEndData(bs: nat, offset: nat, useReal: bool, fi: Finfo, i: nat)
    requires bs > 0 && i <= fi.ndatablk
    ensures BinfoEnd(bs, offset, useReal, fi, i) == Advance(bs, offset + FINFO_SIZE, DataSize(useReal), i)
  {
    if i > 0 {
      BinfoEndData(bs, offset, useReal, fi, i - 1);
    }
  }

  lemma {:induction false} BinfoEndNode(bs: nat, offset: nat, useReal: bool, fi: Finfo, i: nat)
    requires bs > 0
    ensures BinfoEnd(bs, offset, useReal, fi, fi.ndatablk + i) ==
            Advance(bs, BinfoEnd(bs, offset, useReal, fi, fi.ndatablk), NodeSize(useReal), i)
  {
    if i > 0 {
      BinfoEndNode(bs, offset, useReal, fi, i - 1);
    }
  }

  /** The length computed in advance is the length of the finfo and its binfos placed one by one. */
  lemma {:induction false} FileInfoSizeExact(bs: nat, offset: nat, useReal: bool, fi: Finfo)
    requires BlockSize(bs) && bs >= 1024 && fi.ndatablk <= fi.nblocks
    ensures offset + FileInfoSize(bs, offset, useReal, fi) == BinfoEnd(bs, offset, useReal, fi, fi.nblocks)
  {
    hide Advance, BinfoTotalSize, BinfoEnd, IncrementSegsumSize, BlockSize;
    var start := offset + FINFO_SIZE;
    TotalIsAdvance(bs, start, DataSize(useReal), fi.ndatablk);
    BinfoEndData(bs, offset, useReal, fi, fi.ndatablk);
    TotalIsAdvance(bs, BinfoEnd(bs, offset, useReal, fi, fi.ndatablk), NodeSize(useReal), fi.nblocks - fi.ndatablk);
    BinfoEndNode(bs, offset, useReal, fi, fi.nblocks - fi.ndatablk);
  }

  /** A placed record does not straddle a block boundary. */
  lemma {:induction false} PlaceFits(bs: nat, offset: nat, size: nat)
    requires 0 < size <= bs
    ensures Place(bs, offset, size) % bs + size <= bs
  {
    var b, r := offset / bs, offset % bs;
    assert offset == b * bs + r;
    PlaceAt(bs, offset, b, r, size);
    DivModUnique((b + 1) * bs, bs, b + 1, 0);
  }

  /** Every binfo lies within one block, before the next one, and within the length of the file. */
  lemma {:induction false} BinfoWithin(bs: nat, offset: nat, useReal: bool, fi: Finfo, i: nat)
    requires BlockSize(bs) && bs >= 1024 && i < fi.nblocks && fi.ndatablk <= fi.nblocks
    ensures BinfoAt(bs, offset, useReal, fi, i) % bs + BinfoSize(useReal, fi, i) <= bs
    ensures BinfoAt(bs, offset, useReal, fi, i) + BinfoSize(useReal, fi, i) == BinfoEnd(bs, offset, useReal, fi, i + 1)
            <= BinfoAt(bs, offset, useReal, fi, i + 1)
    ensures BinfoAt(bs, offset, useReal, fi, i) + BinfoSize(useReal, fi, i) <= offset
            + FileInfoSize(bs, offset, useReal, fi)
  {
    PlaceFits(bs, BinfoEnd(bs, offset, useReal, fi, i), BinfoSize(useReal, fi, i));
    BinfoEndMonotone(bs, offset, useReal, fi, i + 1, fi.nblocks);
    FileInfoSizeExact(bs, offset, useReal, fi);
  }

  lemma {:induction false} BinfoEndMonotone(bs: nat, offset: nat, useReal: bool, fi: Finfo, i: nat, j: nat)
    requires bs > 0 && i <= j
    ensures BinfoEnd(bs, offset, useReal, fi, i) <= BinfoEnd(bs, offset, useReal, fi, j)
    decreases j
  {
    if i < j {
      BinfoEndMonotone(bs, offset, useReal, fi, i, j - 1);
    }
  }

  /** Distinct binfos of a file do not overlap. */
  lemma {:induction false} BinfosDisjoint(bs: nat, offset: nat, useReal: bool, fi: Finfo, i: nat, j: nat)
    requires bs > 0 && i < j
    ensures BinfoAt(bs, offset, useReal, fi, i) + BinfoSize(useReal, fi, i) <= BinfoAt(bs, offset, useReal, fi, j)
  {
    BinfoEndMonotone(bs, offset, useReal, fi, i + 1, j);
  }
}
