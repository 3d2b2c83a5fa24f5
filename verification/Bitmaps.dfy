/** Bit operations on a byte buffer, and the block-grouped files of mkfs that use them. */
module Bitmaps {

  /** The mask 1 << k. */
  function Mask(k: nat): bv8
    requires k < 8
  {
    match k
    case 0 => 1
    case 1 => 2
    case 2 => 4
    case 3 => 8
    case 4 => 16
    case 5 => 32
    case 6 => 64
    case _ => 128
  }

  predicate Has(b: bv8, k: nat)
    requires k < 8
  {
    b & Mask(k) != 0
  }

  function With(b: bv8, k: nat): bv8
    requires k < 8
  {
    b | Mask(k)
  }

  function Without(b: bv8, k: nat): bv8
    requires k < 8
  {
    b & !Mask(k)
  }

  lemma {:induction false} BitOfByte(b: bv8, k: nat, j: nat)
    requires k < 8 && j < 8
    ensures Has(With(b, k), j) <==> (j == k || Has(b, j))
    ensures Has(Without(b, k), j) <==> (j != k && Has(b, j))
  {
  }

  /** The bit `nr` of the buffer. */
  predicate TestBit(nr: nat, addr: seq<bv8>)
    requires nr / 8 < |addr|
  {
    Has(addr[nr / 8], nr % 8)
  }

  /** ext2fs_set_bit; the result is the old bit. */
  method SetBit(nr: nat, addr: array<bv8>) returns (was: bool)
    requires nr / 8 < addr.Length
    modifies addr
    ensures was == TestBit(nr, old(addr[..]))
    ensures forall j :: 0 <= j < 8 * addr.Length ==>
              (TestBit(j, addr[..]) <==> (j == nr || TestBit(j, old(addr[..]))))
  {
    var byte := addr[nr / 8];
    was := Has(byte, nr % 8);
    addr[nr / 8] := With(byte, nr % 8);
    forall j | 0 <= j < 8 * addr.Length
      ensures TestBit(j, addr[..]) <==> (j == nr || TestBit(j, old(addr[..])))
    {
      BitOfByte(byte, nr % 8, j % 8);
    }
  }

  /** ext2fs_clear_bit; the result is the old bit. */
  method ClearBit(nr: nat, addr: array<bv8>) returns (was: bool)
    requires nr / 8 < addr.Length
    modifies addr
    ensures was == TestBit(nr, old(addr[..]))
    ensures forall j :: 0 <= j < 8 * addr.Length ==>
              (TestBit(j, addr[..]) <==> (j != nr && TestBit(j, old(addr[..]))))
  {
    var byte := addr[nr / 8];
    was := Has(byte, nr % 8);
    addr[nr / 8] := Without(byte, nr % 8);
    forall j | 0 <= j < 8 * addr.Length
      ensures TestBit(j, addr[..]) <==> (j != nr && TestBit(j, old(addr[..])))
    {
      BitOfByte(byte, nr % 8, j % 8);
    }
  }

  /** The number of set bits among the first n. */
  function SetBits(addr: seq<bv8>, n: nat): (count: nat)
    requires n <= 8 * |addr|
    ensures count <= n
  {
    if n == 0 then 0 else SetBits(addr, n - 1) + (if TestBit(n - 1, addr) then 1 else 0)
  }

  lemma {:induction false} SetOne(before: seq<bv8>, after: seq<bv8>, nr: nat, n: nat)
    requires |before| == |after| && n <= 8 * |before| && nr < 8 * |before|
    requires !TestBit(nr, before)
    requires forall j :: 0 <= j < 8 * |before| ==> (TestBit(j, after) <==> (j == nr || TestBit(j, before)))
    ensures SetBits(after, n) == SetBits(before, n) + (if nr < n then 1 else 0)
  {
    if n > 0 {
      SetOne(before, after, nr, n - 1);
    }
  }

  lemma {:induction false} SameBits(before: seq<bv8>, after: seq<bv8>, n: nat)
    requires |before| == |after| && n <= 8 * |before|
    requires forall j :: 0 <= j < 8 * |before| ==> (TestBit(j, after) <==> TestBit(j, before))
    ensures SetBits(after, n) == SetBits(before, n)
  {
    if n > 0 {
      SameBits(before, after, n - 1);
    }
  }

  lemma {:induction false} NoBits(addr: seq<bv8>, n: nat)
    requires n <= 8 * |addr| && forall i :: 0 <= i < |addr| ==> addr[i] == 0
    ensures SetBits(addr, n) == 0
    ensures forall j :: 0 <= j < n ==> !TestBit(j, addr)
  {
    if n > 0 {
      NoBits(addr, n - 1);
      ZeroHas((n - 1) % 8);
    }
  }

  lemma {:induction false} ZeroHas(k: nat)
    requires k < 8
    ensures !Has(0, k)
  {
  }

  /** The first group of a block-grouped file: its free count and its bitmap block. */
  class Group {
    const blocksize: nat
    const bitmap: array<bv8>
    var nfrees: nat

    /** Free entries and set bits add up to the size of the group. */
    ghost predicate Valid()
      reads this, bitmap
    {
      bitmap.Length == blocksize && nfrees + SetBits(bitmap[..], 8 * blocksize) == 8 * blocksize
    }

    /** prepare_blockgrouped_file */
    constructor (blocksize: nat)
      ensures Valid() && this.blocksize == blocksize && nfrees == 8 * blocksize && fresh(bitmap)
      ensures forall j :: 0 <= j < 8 * blocksize ==> !TestBit(j, bitmap[..])
    {
      this.blocksize := blocksize;
      bitmap := new bv8[blocksize](_ => 0);
      nfrees := blocksize * 8;
      new;
      NoBits(bitmap[..], 8 * blocksize);
    }

    /** alloc_blockgrouped_file_entry: fails when the entry is allocated already. */
    method AllocEntry(nr: nat) returns (ok: bool)
      requires Valid() && nr < 8 * blocksize
      modifies `nfrees, bitmap
      ensures Valid()
      ensures ok <==> old(!TestBit(nr, bitmap[..]))
      ensures ok ==> nfrees == old(nfrees) - 1
      ensures forall j :: 0 <= j < 8 * blocksize ==>
              (TestBit(j, bitmap[..]) <==> (j == nr || old(TestBit(j, bitmap[..]))))
    {
      if TestBit(nr, bitmap[..]) {
        return false;
      }
      ghost var before := bitmap[..];
      var was := SetBit(nr, bitmap);
      SetOne(before, bitmap[..], nr, 8 * blocksize);
      nfrees := nfrees - 1;
      return true;
    }
  }

  datatype DatEntry = DatEntry(blocknr: nat, start: nat, end: nat)

  const DAT_ENTRY_SIZE: nat := 32
  const GROUP_BLOCKS: nat := 2    // descriptor block and bitmap block
  const CNO_MAX: nat := 0xFFFF_FFFF_FFFF_FFFF

  /** count_dat_blocks, without its check of the group size */
  function CountDatBlocks(blocksize: nat, nrEntries: nat): (n: nat)
    requires blocksize >= 1024
    ensures n >= GROUP_BLOCKS
  {
    var perBlock := blocksize / DAT_ENTRY_SIZE;
    GROUP_BLOCKS + (nrEntries + perBlock - 1) / perBlock
  }

  /** The DAT file that mkfs makes: allocation group, entries, and the next virtual block number. */
  class Dat {
    const group: Group
    const cno: nat
    const entries: array<DatEntry>
    var vblocknr: nat

    /** Exactly the numbers below `vblocknr` are allocated. */
    ghost predicate Valid()
      reads this, group, group.bitmap, entries
    {
      && (entries as object) != group.bitmap
      && group.Valid() && vblocknr >= 1
      && (forall j :: 0 <= j < 8 * group.blocksize ==> (TestBit(j, group.bitmap[..]) <==> j < vblocknr))
    }

    /** init_nilfs and prepare_dat: number 0 is reserved. */
    constructor (blocksize: nat, nblocks: nat, cno: nat)
      requires blocksize >= 1024 && nblocks >= GROUP_BLOCKS
      ensures Valid() && vblocknr == 1 && this.cno == cno
      ensures group.blocksize == blocksize && entries.Length == (nblocks - GROUP_BLOCKS) * (blocksize / DAT_ENTRY_SIZE)
      ensures fresh(group) && fresh(group.bitmap) && fresh(entries)
      ensures forall i :: 0 <= i < entries.Length ==> entries[i] == DatEntry(0, 0, 0)
    {
      var g := new Group(blocksize);
      var ok := g.AllocEntry(0);
      group := g;
      var n := (nblocks - GROUP_BLOCKS) * (blocksize / DAT_ENTRY_SIZE);
      entries := new DatEntry[n](_ => DatEntry(0, 0, 0));
      vblocknr := 1;
      this.cno := cno;
    }

    /**
     assign_vblocknr: fails only when the entry would lie beyond the file or the group.  Otherwise
     the new number resolves to the block, and no earlier number changes its meaning.
     */
    method AssignVblocknr(blocknr: nat) returns (number: nat, ok: bool)
      requires Valid()
      modifies this, group, group.bitmap, entries
      ensures ok <==> (entries.Length > old(vblocknr) && 8 * group.blocksize > old(vblocknr))
      ensures ok ==> Valid() && number == old(vblocknr) && vblocknr == number + 1
      ensures ok ==> entries[number] == DatEntry(blocknr, cno, CNO_MAX)
      ensures ok ==> forall v :: 0 <= v < entries.Length && v != number ==> entries[v] == old(entries[v])
    {
      number := vblocknr;
      if number >= 8 * group.blocksize {
        return number, false;
      }
      vblocknr := vblocknr + 1;
      ok := group.AllocEntry(number);
      if number >= entries.Length {
        return number, false;
      }
      entries[number] := DatEntry(blocknr, cno, CNO_MAX);
    }
  }

  /**
   The DAT gets room for as many entries as numbers will be assigned, but number 0 takes one of
   them: the last number has an entry just when the count does not fill its blocks.
   */
  lemma {:induction false} DatCapacity(blocksize: nat, nvblocknrs: nat)
    requires blocksize >= 1024
    ensures var perBlock := blocksize / DAT_ENTRY_SIZE;
            nvblocknrs < (CountDatBlocks(blocksize, nvblocknrs) - GROUP_BLOCKS) * perBlock <==>
              nvblocknrs % perBlock != 0
  {
    var perBlock := blocksize / DAT_ENTRY_SIZE;
    assert perBlock >= 32;
    CeilTimes(nvblocknrs, perBlock);
  }

  lemma {:induction false} CeilTimes(n: nat, d: nat)
    requires d >= 1
    ensures n < (n + d - 1) / d * d <==> n % d != 0
  {
    var q, r := n / d, n % d;
    assert n == q * d + r;
    var c := (n + d - 1) / d;
    assert n + d - 1 == c * d + (n + d - 1) % d;
    var e := (n + d - 1) % d;
    assert (c - q) * d == c * d - q * d;
    assert (c - q) * d == r + d - 1 - e;
    Multiple(c - q, d);
  }

  lemma {:induction false} Multiple(k: int, d: nat)
    requires d >= 1
    ensures k >= 1 ==> k * d >= d
    ensures k <= 0 ==> k * d <= 0
    ensures k >= 2 ==> k * d >= 2 * d
  {
  }
}
