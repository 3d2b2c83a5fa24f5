/**
 Where records lie in a segment summary: records of a few bytes follow each other, and a record
 that does not fit in the rest of a block goes to the start of the next block.
 */
module Layout {
  import opened Arithmetic

  /** Block sizes are powers of two from 1024 on. */
  ghost predicate BlockSize(bs: nat) {
    bs == 1024 || (bs > 1024 && bs % 2 == 0 && BlockSize(bs / 2))
  }

  lemma {:induction false} BlockSizeFacts(bs: nat)
    requires BlockSize(bs)
    ensures bs >= 1024 && bs % 16 == 0 && bs % 8 == 0
  {
    if bs > 1024 {
      BlockSizeFacts(bs / 2);
    }
  }

  /** The bytes left in the block that holds `offset`. */
  function Rest(bs: nat, offset: nat): (rest: nat)
    requires bs > 0
    ensures 0 < rest <= bs
  {
    bs - offset % bs
  }

  /** The place of a record of `size` bytes that follows what ends at `offset`. */
  function Place(bs: nat, offset: nat, size: nat): (place: nat)
    requires bs > 0
    ensures offset <= place
  {
    if size > Rest(bs, offset) then offset + Rest(bs, offset) else offset
  }

  /** The end of `count` records of `size` bytes that are placed one by one from `offset` on. */
  function Advance(bs: nat, offset: nat, size: nat, count: nat): (end: nat)
    requires bs > 0
    ensures offset <= end
  {
    if count == 0 then offset else Place(bs, Advance(bs, offset, size, count - 1), size) + size
  }

  /** The writer's closed form, __increment_segsum_size. */
  function IncrementSegsumSize(bs: nat, offset: nat, itemSize: nat, count: nat): int
    requires 0 < itemSize <= bs
  {
    var restItems := (bs - offset % bs) / itemSize;
    if count <= restItems then offset + itemSize * count
    else
      DivPositive(bs, itemSize);
      var perBlock := bs / itemSize;
      var left := count - restItems;
      bs * (offset / bs + 1 + left / perBlock) + left % perBlock * itemSize
  }

  /** The reader's closed form, nilfs_binfo_total_size. */
  function BinfoTotalSize(offset: nat, bs: nat, binfoSize: nat, count: nat): int
    requires 0 < binfoSize <= bs
  {
    var rest := bs - offset % bs;
    if binfoSize * count <= rest then binfoSize * count
    else
      DivPositive(bs, binfoSize);
      var left := count - rest / binfoSize;
      var perBlock := bs / binfoSize;
      rest + left / perBlock * bs + left % perBlock * binfoSize
  }

  /** The two closed forms agree on every input. */
  lemma {:induction false} ClosedFormsAgree(bs: nat, offset: nat, size: nat, count: nat)
    requires 0 < size <= bs
    ensures offset + BinfoTotalSize(offset, bs, size, count) == IncrementSegsumSize(bs, offset, size, count)
  {
    var rest := bs - offset % bs;
    FitsByDivision(rest, size, count);
    if count > rest / size {
      DivPositive(bs, size);
      var q := (count - rest / size) / (bs / size);
      var b := offset / bs;
      assert offset == b * bs + offset % bs;
      Distribute(bs, b + 1, q);
      Distribute(bs, b, 1);
    }
  }

  // ----- records placed one by one -----

  /** Placing a record at byte `r` of block `b`. */
  lemma {:induction false} PlaceAt(bs: nat, offset: nat, b: nat, r: nat, size: nat)
    requires r <= bs && 0 < size <= bs && offset == b * bs + r
    ensures r + size <= bs ==> Place(bs, offset, size) == offset
    ensures r + size > bs ==> Place(bs, offset, size) == (b + 1) * bs
    ensures (b + 1) * bs == b * bs + bs
  {
    Distribute(bs, b, 1);
    if r < bs {
      DivModUnique(offset, bs, b, r);
    } else {
      DivModUnique(offset, bs, b + 1, 0);
    }
  }

  /** Records that fit in the first block lie one after the other. */
  lemma {:induction false} AdvanceFirst(bs: nat, offset: nat, b: nat, r: nat, size: nat, i: nat)
    requires r < bs && 0 < size <= bs && offset == b * bs + r
    requires r + i * size <= bs
    ensures Advance(bs, offset, size, i) == offset + i * size
  {
    if i > 0 {
      Distribute(size, i - 1, 1);
      AdvanceFirst(bs, offset, b, r, size, i - 1);
      MulNat(i - 1, size);
      PlaceAt(bs, offset + (i - 1) * size, b, r + (i - 1) * size, size);
    }
  }

  /** After the first block, every block holds as many records as fit in one. */
  lemma {:induction false} AdvanceLater(bs: nat, offset: nat, b: nat, r: nat, size: nat,
                                        first: nat, per: nat, q: nat, m: nat, count: nat)
    requires r < bs && 0 < size <= bs && offset == b * bs + r
    requires first * size <= bs - r < first * size + size
    requires per * size <= bs < per * size + size
    requires 1 <= m <= per && count == first + q * per + m
    ensures Advance(bs, offset, size, count) == (b + 1 + q) * bs + m * size
    decreases q, m
  {
    CountNat(first, q, per, m);
    AdvanceStep(bs, offset, size, count);
    hide Advance, Place, Rest;
    if m > 1 {
      AdvanceLater(bs, offset, b, r, size, first, per, q, m - 1, count - 1);
      LaterStep(bs, b + 1 + q, size, m, per);
    } else if q == 0 {
      FirstStep(bs, offset, b, r, size, first);
    } else {
      Distribute(per, q - 1, 1);
      AdvanceLater(bs, offset, b, r, size, first, per, q - 1, per, count - 1);
      WrapStep(bs, b + q, size, per);
    }
  }

  lemma {:induction false} CountNat(first: nat, q: nat, per: nat, m: nat)
    ensures first + q * per + m >= m
    ensures q == 0 ==> first + q * per + m == first + m
  {
  }

  lemma {:induction false} AdvanceStep(bs: nat, offset: nat, size: nat, count: nat)
    requires bs > 0 && count > 0
    ensures Advance(bs, offset, size, count) == Place(bs, Advance(bs, offset, size, count - 1), size) + size
  {
  }

  lemma {:induction false} FirstStep(bs: nat, offset: nat, b: nat, r: nat, size: nat, first: nat)
    requires r < bs && 0 < size <= bs && offset == b * bs + r
    requires first * size <= bs - r < first * size + size
    ensures Place(bs, Advance(bs, offset, size, first), size) == (b + 1) * bs
  {
    AdvanceFirst(bs, offset, b, r, size, first);
    MulNat(first, size);
    PlaceAt(bs, offset + first * size, b, r + first * size, size);
  }

  lemma {:induction false} WrapStep(bs: nat, block: nat, size: nat, per: nat)
    requires 0 < size <= bs && per * size <= bs < per * size + size
    ensures block * bs + per * size >= 0
    ensures Place(bs, block * bs + per * size, size) == (block + 1) * bs
  {
    MulNat(per, size);
    MulNat(block, bs);
    PlaceAt(bs, block * bs + per * size, block, per * size, size);
  }

  lemma {:induction false} LaterStep(bs: nat, block: nat, size: nat, m: nat, per: nat)
    requires 0 < size && 1 < m <= per && per * size <= bs
    ensures block * bs + (m - 1) * size >= 0
    ensures Place(bs, block * bs + (m - 1) * size, size) + size == block * bs + m * size
  {
    Distribute(size, m - 1, 1);
    MulMonotone(size, m, per);
    MulNat(m - 1, size);
    MulNat(block, bs);
    PlaceAt(bs, block * bs + (m - 1) * size, block, (m - 1) * size, size);
  }

  /**
   The closed form is the end of the records placed one by one, except in one case: the last record
   is the last one that fits in a later block and does not end where the block ends; then it is the
   end of the block.
   */
  lemma {:induction false} ClosedFormExact(bs: nat, offset: nat, size: nat, count: nat)
    requires 0 < size <= bs
    ensures bs / size >= 1
    ensures IncrementSegsumSize(bs, offset, size, count) == Advance(bs, offset, size, count) <==>
            (count > Rest(bs, offset) / size && (count - Rest(bs, offset) / size) % (bs / size) == 0 ==> bs % size == 0)
  {
    hide Advance;
    DivPositive(bs, size);
    var rest, b, r := Rest(bs, offset), offset / bs, offset % bs;
    var first, per := rest / size, bs / size;
    Division(offset, bs);
    Division(rest, size);
    Division(bs, size);
    FitsByDivision(rest, size, count);
    if count <= first {
      AdvanceFirst(bs, offset, b, r, size, count);
      assert IncrementSegsumSize(bs, offset, size, count) == offset + size * count;
    } else {
      CountLater(bs, offset, b, r, size, first, per, count);
    }
  }

  lemma {:induction false} Division(n: nat, d: nat)
    requires d > 0
    ensures n == n / d * d + n % d && n % d < d
  {
  }

  lemma {:induction false} CountLater(bs: nat, offset: nat, b: nat, r: nat, size: nat, first: nat, per: nat, count: nat)
    requires r < bs && 0 < size <= bs && offset == b * bs + r && per >= 1 && count > first
    requires first * size <= bs - r < first * size + size
    requires per * size <= bs < per * size + size
    ensures var left := count - first;
            var closed := bs * (b + 1 + left / per) + left % per * size;
            closed == Advance(bs, offset, size, count) + (if left % per == 0 then bs - per * size else 0)
  {
    var left := count - first;
    var q, m := left / per, left % per;
    assert left == q * per + m;
    if m > 0 {
      AdvanceLater(bs, offset, b, r, size, first, per, q, m, count);
    } else {
      assert q == 0 ==> q * per == 0;
      Distribute(per, q - 1, 1);
      AdvanceLater(bs, offset, b, r, size, first, per, q - 1, per, count);
      Distribute(bs, b + q, 1);
    }
  }
}
