/** Where the inodes of the initial files lie, and what mkfs relies on without a check. */
module MkfsInodes {
  import opened Wrappers
  import opened Layout
  import opened SegmentFormat
  import opened MkfsLayout
  import opened Bitmaps

  const ROOT_INO: nat := 2
  const CPFILE_INO: nat := 4
  const SUFILE_INO: nat := 5
  const IFILE_INO: nat := 6
  const ATIME_INO: nat := 7
  const INODE_SIZE: nat := 128

  /** The inodes that an ifile of so many blocks has room for. */
  function InodesOf(bs: nat, nblocks: nat): int
    requires bs >= 1024
  {
    (nblocks - GROUP_BLOCKS) * (bs / INODE_SIZE)
  }

  /** They fill its blocks behind the descriptor and the bitmap. */
  lemma {:induction false} InodesFill(bs: nat, nblocks: nat)
    requires BlockSize(bs)
    ensures bs >= 1024 && 128 * InodesOf(bs, nblocks) == (nblocks - 2) * bs
  {
    BlockSizeFacts(bs);
    InodesPerBlock(bs);
    Rearranged(nblocks - GROUP_BLOCKS, bs / INODE_SIZE);
  }

  lemma {:induction false} Rearranged(a: int, b: int)
    ensures 128 * (a * b) == a * (128 * b)
  {
  }

  lemma {:induction false} InodesPerBlock(bs: nat)
    requires BlockSize(bs)
    ensures 128 * (bs / INODE_SIZE) == bs
  {
    if bs > 1024 {
      InodesPerBlock(bs / 2);
    }
  }

  ghost predicate Distinct(files: seq<FileInfo>) {
    forall i, j :: 0 <= i < j < |files| ==> files[i].ino != files[j].ino
  }

  ghost predicate Present(files: seq<FileInfo>, ino: nat) {
    exists i :: 0 <= i < |files| && files[i].ino == ino
  }

  /**
   Every file has an inode on the disk, and an entry in its block map for each block: no inode number
   occurs twice, all reserved ones occur, the ifile has room for them, and the cpfile has a first block.
   */
  ghost predicate Mappable(bs: nat, files: seq<FileInfo>)
    requires bs >= 1024
  {
    && Distinct(files) && (forall ino: nat :: 1 <= ino < MAX_INITIAL_INO ==> Present(files, ino))
    && (forall i :: 0 <= i < |files| && files[i].ino == IFILE_INO ==> InodesOf(bs, files[i].nblocks) >= MAX_INITIAL_INO)
    && (forall i :: 0 <= i < |files| && files[i].ino == CPFILE_INO ==> files[i].nblocks > 0)
    && (forall i :: 0 <= i < |files| ==> files[i].nblocks <= MAX_BMAP_ROOT_PTRS)
  }

  /** The table nilfs.files of prepare_segment: for every inode number the last file that has it. */
  method FileTable(files: seq<FileInfo>) returns (table: map<nat, nat>)
    ensures TableOf(files, table)
  {
    table := map[];
    for i := 0 to |files|
      invariant forall ino :: ino in table ==> table[ino] < i && files[table[ino]].ino == ino
      invariant forall k :: 0 <= k < i ==> files[k].ino in table && k <= table[files[k].ino]
    {
      table := table[files[i].ino := i];
    }
  }

  /** The table as FileTable makes it. */
  ghost predicate TableOf(files: seq<FileInfo>, table: map<nat, nat>) {
    && (forall ino :: ino in table ==> table[ino] < |files| && files[table[ino]].ino == ino)
    && (forall i :: 0 <= i < |files| ==> files[i].ino in table && i <= table[files[i].ino])
  }

  /** The root directory and the files that nilfs_mkfs_make_reserved_files initialises. */
  const Reserved: seq<nat> := [ROOT_INO, ATIME_INO, 1, 8, 9, 10]

  const MetaInos: set<nat> := {CPFILE_INO, SUFILE_INO, DAT_INO, IFILE_INO}

  /** The files that prepare_segment and what it calls rely on. */
  ghost predicate MetaFiles(files: seq<FileInfo>, table: map<nat, nat>)
    requires TableOf(files, table)
  {
    (forall ino :: ino in MetaInos ==> ino in table) && files[table[CPFILE_INO]].nblocks > 0
  }

  /** The table leads to file i, and its inode has a place among the first `bound`, or outside the ifile. */
  ghost predicate Placed(files: seq<FileInfo>, table: map<nat, nat>, bound: int, i: nat)
    requires TableOf(files, table)
  {
    i < |files| && table[files[i].ino] == i && (files[i].ino in MetaInos || files[i].ino < bound)
  }

  /**
   The files whose raw_inode is set by prepare_segment and what it calls: cpfile, sufile and DAT have
   theirs in the super root, the ifile has it in the first checkpoint, the others in the ifile.  None
   means that a file is missing, so that a null pointer is used.
   */
  method FindInodes(bs: nat, files: seq<FileInfo>, table: map<nat, nat>) returns (raw: Option<set<nat>>)
    requires bs >= 1024 && TableOf(files, table)
    ensures raw.Some? <==> MetaFiles(files, table)
    ensures raw.Some? ==> RawOf(bs, files, table, raw.value)
  {
    if CPFILE_INO !in table || SUFILE_INO !in table || DAT_INO !in table || IFILE_INO !in table {
      return None;
    }
    if files[table[CPFILE_INO]].nblocks == 0 {
      return None;
    }
    var found := {table[CPFILE_INO], table[SUFILE_INO], table[DAT_INO], table[IFILE_INO]};
    var room := InodesOf(bs, files[table[IFILE_INO]].nblocks);
    for ino := 0 to MAX_INITIAL_INO
      invariant forall i: nat :: i in found <==> Placed(files, table, Min(ino, room), i)
    {
      if ino < room && ino in table {
        found := found + {table[ino]};
      }
    }
    return Some(found);
  }

  function Min(a: int, b: int): int { if a < b then a else b }

  lemma {:induction false} MetaNeeded(bs: nat, files: seq<FileInfo>, table: map<nat, nat>)
    requires bs >= 1024 && TableOf(files, table)
    ensures Mappable(bs, files) ==> MetaFiles(files, table)
  {
    if Mappable(bs, files) {
      assert Present(files, CPFILE_INO) && Present(files, SUFILE_INO) && Present(files, DAT_INO) &&
             Present(files, IFILE_INO);
    }
  }

  ghost predicate RawOf(bs: nat, files: seq<FileInfo>, table: map<nat, nat>, raw: set<nat>)
    requires bs >= 1024 && TableOf(files, table) && MetaFiles(files, table)
  {
    var bound := Min(MAX_INITIAL_INO, InodesOf(bs, files[table[IFILE_INO]].nblocks));
    forall i: nat :: i in raw <==> Placed(files, table, bound, i)
  }

  /** Every file and every reserved inode has been found, and no file has too many blocks. */
  ghost predicate Found(files: seq<FileInfo>, table: map<nat, nat>, raw: set<nat>) {
    && (forall i: nat :: i < |files| ==> i in raw && files[i].nblocks <= MAX_BMAP_ROOT_PTRS)
    && (forall k :: 0 <= k < |Reserved| ==> Reserved[k] in table && table[Reserved[k]] in raw)
  }

  lemma {:induction false} FoundIfMappable(bs: nat, files: seq<FileInfo>, table: map<nat, nat>, raw: set<nat>)
    requires bs >= 1024 && TableOf(files, table) && MetaFiles(files, table) && RawOf(bs, files, table, raw)
    requires forall i :: 0 <= i < |files| ==> files[i].ino < MAX_INITIAL_INO
    requires Mappable(bs, files)
    ensures Found(files, table, raw)
  {
    hide InodesOf;
    assert files[table[IFILE_INO]].ino == IFILE_INO;
    var bound := Min(MAX_INITIAL_INO, InodesOf(bs, files[table[IFILE_INO]].nblocks));
    forall i: nat | i < |files| ensures i in raw {
      assert Placed(files, table, bound, i);
    }
    forall k | 0 <= k < |Reserved| ensures Reserved[k] in table {
      assert Present(files, Reserved[k]);
    }
  }

  lemma {:induction false} MappableIfFound(bs: nat, files: seq<FileInfo>, table: map<nat, nat>, raw: set<nat>)
    requires bs >= 1024 && TableOf(files, table) && MetaFiles(files, table) && RawOf(bs, files, table, raw)
    requires Found(files, table, raw)
    ensures Mappable(bs, files)
  {
    hide InodesOf;
    var bound := Min(MAX_INITIAL_INO, InodesOf(bs, files[table[IFILE_INO]].nblocks));
    forall i, j | 0 <= i < j < |files| ensures files[i].ino != files[j].ino {
      assert Placed(files, table, bound, i) && Placed(files, table, bound, j);
    }
    forall ino: nat | 1 <= ino < MAX_INITIAL_INO ensures Present(files, ino) {
      assert ino in MetaInos || ino in Reserved by {
        assert ino in [Reserved[0], Reserved[1], Reserved[2], Reserved[3], Reserved[4], Reserved[5]] || 3 <= ino <= 6;
      }
      assert files[table[ino]].ino == ino;
    }
    assert Reserved[5] == 10;
    assert table[10] in raw && Placed(files, table, bound, table[10]);
  }

  /**
   Whether preparing the files, making the root directory and the reserved files, and update_blocknr
   stay within what they have: each uses the raw_inode of its file, and update_blocknr its block map.
   */
  method PrepareFiles(bs: nat, files: seq<FileInfo>) returns (ok: bool)
    requires bs >= 1024 && forall i :: 0 <= i < |files| ==> files[i].ino < MAX_INITIAL_INO
    ensures ok <==> Mappable(bs, files)
  {
    var table := FileTable(files);
    var raw := FindInodes(bs, files, table);
    MetaNeeded(bs, files, table);
    if raw.None? {
      return false;
    }
    if Mappable(bs, files) {
      FoundIfMappable(bs, files, table, raw.value);
    }
    if Found(files, table, raw.value) {
      MappableIfFound(bs, files, table, raw.value);
    }
    for k := 0 to |Reserved|
      invariant forall j :: 0 <= j < k ==> Reserved[j] in table && table[Reserved[j]] in raw.value
    {
      if Reserved[k] !in table || table[Reserved[k]] !in raw.value {
        return false;
      }
    }
    for i := 0 to |files|
      invariant forall j :: 0 <= j < i ==> j in raw.value && files[j].nblocks <= MAX_BMAP_ROOT_PTRS
    {
      if i !in raw.value || files[i].nblocks > MAX_BMAP_ROOT_PTRS {
        return false;
      }
    }
    return true;
  }
}
