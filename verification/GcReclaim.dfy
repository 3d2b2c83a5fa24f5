/** Reclaiming segments: what the collector asks the kernel to delete and to move. */
module GcReclaim {
  import opened Wrappers
  import opened Arithmetic
  import opened Checkpoints
  import opened BlockCollect
  import opened Vectors
  import opened GcLiveness
  import opened GcPeriods
  import opened GcToss
  import opened GcSelect

  const GC_NVINFO: nat := 512
  const GC_NBDESCS: nat := 512

  /** The lives of virtual blocks and the current blocks of the DAT: what the kernel answers. */
  datatype Kernel = Kernel(lives: nat -> Period, current: Bdesc -> nat)

  function Filled(vs: seq<Vdesc>, lives: nat -> Period): (r: seq<Vdesc>)
    ensures |r| == |vs|
  {
    seq(|vs|, i requires 0 <= i < |vs| => vs[i].(period := lives(vs[i].vblocknr)))
  }

  function Looked(bs: seq<Bdesc>, current: Bdesc -> nat): (r: seq<Bdesc>)
    ensures |r| == |bs|
  {
    seq(|bs|, i requires 0 <= i < |bs| => bs[i].(blocknr := current(bs[i])))
  }

  /** The first i descriptors have been filled in. */
  ghost predicate FilledUpTo(now: seq<Vdesc>, vs: seq<Vdesc>, lives: nat -> Period, i: nat) {
    |now| == |vs| && forall k :: 0 <= k < |vs| ==> now[k] == if k < i then vs[k].(period := lives(vs[k].vblocknr))
      else vs[k]
  }

  ghost predicate LookedUpTo(now: seq<Bdesc>, bs: seq<Bdesc>, current: Bdesc -> nat, i: nat) {
    |now| == |bs| && forall k :: 0 <= k < |bs| ==> now[k] == if k < i then bs[k].(blocknr := current(bs[k])) else bs[k]
  }

  /** nilfs_comp_vdesc_vblocknr and nilfs_comp_vdesc_blocknr */
  const NumbersFirst: (Vdesc, Vdesc) -> bool := (a: Vdesc, b: Vdesc) => a.vblocknr <= b.vblocknr
  const BlocksFirst: (Vdesc, Vdesc) -> bool := (a: Vdesc, b: Vdesc) => a.blocknr <= b.blocknr

  /** nilfs_comp_bdesc */
  const InodesFirst: (Bdesc, Bdesc) -> bool := (a: Bdesc, b: Bdesc) =>
    a.ino < b.ino || (a.ino == b.ino && (a.level < b.level || (a.level == b.level && a.offset <= b.offset)))

  // ----- the orders in which the kernel is asked, and in which blocks are moved -----

  ghost predicate ByNumber(vdescs: seq<Vdesc>) {
    forall i, j :: 0 <= i < j < |vdescs| ==> vdescs[i].vblocknr <= vdescs[j].vblocknr
  }

  ghost predicate ByBlock(vdescs: seq<Vdesc>) {
    forall i, j :: 0 <= i < j < |vdescs| ==> vdescs[i].blocknr <= vdescs[j].blocknr
  }

  /** By inode, level and offset. */
  ghost predicate ByInode(bdescs: seq<Bdesc>) {
    forall i, j :: 0 <= i < j < |bdescs| ==>
      var a, b := bdescs[i], bdescs[j];
      && a.ino <= b.ino
      && (a.ino == b.ino ==> a.level <= b.level)
      && (a.ino == b.ino && a.level == b.level ==> a.offset <= b.offset)
  }

  /** nilfs_get_vdesc: the descriptors, sorted by number, with the lives that the kernel answers batch by batch. */
  method GetVdesc(vdescv: Vector<Vdesc>, kernel: Kernel) returns (ok: bool, ghost sorted: seq<Vdesc>)
    requires vdescv.Valid()
    modifies vdescv.data
    ensures vdescv.Valid()
    ensures multiset(sorted) == multiset(old(vdescv.Contents())) && ByNumber(sorted)
    ensures ok ==> vdescv.Contents() == Filled(sorted, kernel.lives)
  {
    vdescv.Sort(NumbersFirst);
    sorted := vdescv.Contents();
    var i := 0;
    while i < vdescv.nelems
      invariant vdescv.Valid() && |sorted| == vdescv.nelems && i <= |sorted|
      invariant FilledUpTo(vdescv.Contents(), sorted, kernel.lives, i)
      decreases |sorted| - i
    {
      if * {
        return false, sorted;
      }
      var count := if vdescv.nelems - i < GC_NVINFO then vdescv.nelems - i else GC_NVINFO;
      var n := Answered(count);
      FillBatch(vdescv, kernel, i, n, sorted);
      i := i + n;
    }
    ok := true;
  }

  /** The kernel answers a batch in whole or in part. */
  method Answered(count: nat) returns (n: nat)
    requires count > 0
    ensures 0 < n <= count
  {
    var guess: int := *;
    n := if 0 < guess <= count then guess else count;
  }

  method FillBatch(vdescv: Vector<Vdesc>, kernel: Kernel, i: nat, n: nat, ghost sorted: seq<Vdesc>)
    requires vdescv.Valid() && i + n <= |sorted|
    requires FilledUpTo(vdescv.Contents(), sorted, kernel.lives, i)
    modifies vdescv.data
    ensures vdescv.Valid() && FilledUpTo(vdescv.Contents(), sorted, kernel.lives, i + n)
  {
    for j := 0 to n
      invariant vdescv.Valid() && FilledUpTo(vdescv.Contents(), sorted, kernel.lives, i + j)
    {
      var v := vdescv.Get(i + j);
      assert v == sorted[i + j];
      vdescv.Set(i + j, v.(period := kernel.lives(v.vblocknr)));
    }
  }

  /** nilfs_get_bdesc */
  method GetBdesc(bdescv: Vector<Bdesc>, kernel: Kernel) returns (ok: bool, ghost sorted: seq<Bdesc>)
    requires bdescv.Valid()
    modifies bdescv.data
    ensures bdescv.Valid()
    ensures multiset(sorted) == multiset(old(bdescv.Contents())) && ByInode(sorted)
    ensures ok ==> bdescv.Contents() == Looked(sorted, kernel.current)
  {
    bdescv.Sort(InodesFirst);
    sorted := bdescv.Contents();
    var i := 0;
    while i < bdescv.nelems
      invariant bdescv.Valid() && |sorted| == bdescv.nelems && i <= |sorted|
      invariant LookedUpTo(bdescv.Contents(), sorted, kernel.current, i)
      decreases |sorted| - i
    {
      if * {
        return false, sorted;
      }
      var count := if bdescv.nelems - i < GC_NBDESCS then bdescv.nelems - i else GC_NBDESCS;
      var n := Answered(count);
      LookBatch(bdescv, kernel, i, n, sorted);
      i := i + n;
    }
    ok := true;
  }

  method LookBatch(bdescv: Vector<Bdesc>, kernel: Kernel, i: nat, n: nat, ghost sorted: seq<Bdesc>)
    requires bdescv.Valid() && i + n <= |sorted|
    requires LookedUpTo(bdescv.Contents(), sorted, kernel.current, i)
    modifies bdescv.data
    ensures bdescv.Valid() && LookedUpTo(bdescv.Contents(), sorted, kernel.current, i + n)
  {
    for j := 0 to n
      invariant bdescv.Valid() && LookedUpTo(bdescv.Contents(), sorted, kernel.current, i + j)
    {
      var b := bdescv.Get(i + j);
      assert b == sorted[i + j];
      bdescv.Set(i + j, b.(blocknr := kernel.current(b)));
    }
  }

  // ----- what the kernel is asked to do -----

  /** The arguments of nilfs_clean_segments. */
  datatype Request = Request(vdescs: seq<Vdesc>, periods: seq<Period>, vblocknrs: seq<nat>, bdescs: seq<Bdesc>,
                             segnums: seq<nat>)

  /**
   The virtual blocks have been judged: survivors in the order of their blocks on the disk, the dead in that of
   their numbers, and the unified periods of the dead.
   */
  ghost predicate Judged(vdescs: seq<Vdesc>, periods: seq<Period>, vblocknrs: seq<nat>, vs: seq<Vdesc>, protect: nat,
                         ss: seq<nat>) {
    && multiset(vdescs) == multiset(Survivors(vs, protect, ss, |vs|)) && ByBlock(vdescs)
    && vblocknrs == Freed(vs, protect, ss, |vs|)
    && SameCover(periods, Deletable(vs, protect, ss, |vs|)) && Gapped(periods)
  }

  /** get_vdesc, toss_vdescs, the sort by block and unify_period, as nilfs_xreclaim_segment calls them. */
  method TossVirtual(nilfs: Nilfs, kernel: Kernel, vdescv: Vector<Vdesc>, periodv: Vector<Period>,
                     vblocknrv: Vector<nat>,
                     protcno: nat)
    returns (ok: bool, ghost sorted: seq<Vdesc>)
    requires nilfs.Valid()
    requires vdescv.Valid() && periodv.Valid() && vblocknrv.Valid() && (periodv.data as object) != vblocknrv.data
    requires periodv.Contents() == [] && vblocknrv.Contents() == []
    modifies nilfs`mincno, vdescv, vdescv.data, periodv, periodv.data, vblocknrv, vblocknrv.data
    ensures nilfs.Valid() && vdescv.Valid() && periodv.Valid() && vblocknrv.Valid()
    ensures ok ==> multiset(sorted) == multiset(old(vdescv.Contents())) && ByNumber(sorted)
    ensures ok ==> Judged(vdescv.Contents(), periodv.Contents(), vblocknrv.Contents(), Filled(sorted, kernel.lives),
                          protcno,
                          Cnos(Snapshots(nilfs.cps)))
  {
    hide ByNumber, Filled, Judged, Ascending, Snapshots, Increasing, Vector.Valid, Vector.Contents;
    ok, sorted := GetVdesc(vdescv, kernel);
    if !ok {
      return;
    }
    NilfsAscending(nilfs);
    SnapshotsIncrease(nilfs.cps);
    var ss := GetSnapshot(nilfs);
    if ss.None? {
      ok := false;
      return;
    }
    ok := TossAndUnify(vdescv, periodv, vblocknrv, protcno, ss.value);
  }

  method TossAndUnify(vdescv: Vector<Vdesc>, periodv: Vector<Period>, vblocknrv: Vector<nat>, protcno: nat,
                      ss: seq<nat>)
    returns (ok: bool)
    requires Increasing(ss)
    requires vdescv.Valid() && periodv.Valid() && vblocknrv.Valid() && (periodv.data as object) != vblocknrv.data
    requires periodv.Contents() == [] && vblocknrv.Contents() == []
    modifies vdescv, vdescv.data, periodv, periodv.data, vblocknrv, vblocknrv.data
    ensures vdescv.Valid() && periodv.Valid() && vblocknrv.Valid()
    ensures ok ==> Judged(vdescv.Contents(), periodv.Contents(), vblocknrv.Contents(), old(vdescv.Contents()), protcno,
                          ss)
  {
    hide Survivors, Freed, Deletable, SameCover, Gapped, NonEmptyPeriods, Fewest, Increasing, Vector.Valid,
      Vector.Contents;
    ghost var vs := vdescv.Contents();
    ok := TossVdescs(vdescv, periodv, vblocknrv, protcno, ss);
    if !ok {
      return;
    }
    assert [] + Freed(vs, protcno, ss, |vs|) == Freed(vs, protcno, ss, |vs|);
    assert [] + Deletable(vs, protcno, ss, |vs|) == Deletable(vs, protcno, ss, |vs|);
    vdescv.Sort(BlocksFirst);
    ghost var merged := UnifyPeriod(periodv);
  }

  // ----- the whole run -----

  datatype Params = Params(hasProtseq: bool, hasProtcno: bool, hasMin: bool, unknown: bool, minReclaimable: nat,
                           protseq: nat, protcno: nat)

  /** struct nilfs_reclaim_stat */
  class ReclaimStat {
    var cleaned: int
    var protected: int
    var deferred: int
    var liveV: int
    var defunctV: int
    var freedV: int
    var liveP: int
    var defunctP: int
    var live: int
    var defunct: int

    constructor () {}

    method CountVirtual(total: nat, alive: nat, freed: nat)
      modifies `liveV, `defunctV, `freedV
      ensures liveV == alive && defunctV == total - alive && freedV == freed
    {
      liveV := alive;
      defunctV := total - liveV;
      freedV := freed;
    }

    method CountBlocks(total: nat, alive: nat, reclaimable: nat)
      modifies `liveP, `defunctP, `live, `defunct
      ensures liveP == alive && defunctP == total - alive && live == liveV + alive && defunct == reclaimable
    {
      liveP := alive;
      defunctP := total - liveP;
      live := liveV + liveP;
      defunct := reclaimable;
    }

    /** Every segment is cleaned, deferred or protected; the accepted ones are not protected. */
    ghost predicate Segments(nsegs: nat, accepted: nat)
      reads `cleaned, `protected, `deferred
    {
      && cleaned + protected + deferred == nsegs && cleaned >= 0 && protected >= 0 && deferred >= 0
      && cleaned + deferred == accepted
    }

    /** The block counts agree with each other and with the number of blocks in the taken segments. */
    ghost predicate Blocks(virtuals: nat, dats: nat, total: nat)
      reads `liveV, `defunctV, `freedV, `liveP, `defunctP, `live, `defunct
    {
      && liveV + defunctV == virtuals && freedV == defunctV && liveP + defunctP == dats
      && live == liveV + liveP && defunct == (total - live) % LIMIT32 && 0 <= live <= total
    }
  }

  const LIMIT32: nat := 0x1_0000_0000

  /** The number of reclaimable blocks never underflows, and while it fits in 32 bits it is exact. */
  lemma {:induction false} ReclaimableExact(stat: ReclaimStat, virtuals: nat, dats: nat, total: nat)
    requires stat.Blocks(virtuals, dats, total) && total < LIMIT32
    ensures stat.live + stat.defunct == total && stat.defunct >= 0
    ensures stat.live + stat.defunctV + stat.defunctP == virtuals + dats
  {
    var d := total - stat.live;
    assert d % LIMIT32 == d;
  }

  /** How far a run came. */
  datatype Stage = Started | Counted | Tossed

  function Protcno(params: Params): nat { if params.hasProtcno then params.protcno else CNO_MAX }

  /** What a request must be, given the descriptors with what the kernel answered about them. */
  ghost predicate Faithful(req: Request, vs: seq<Vdesc>, bs: seq<Bdesc>, protect: nat, ss: seq<nat>,
                           accepted: seq<nat>) {
    && Judged(req.vdescs, req.periods, req.vblocknrs, vs, protect, ss)
    && req.bdescs == LiveBdescs(bs, |bs|)
    && req.segnums == accepted
  }

  /** Each judged descriptor was either kept or freed. */
  lemma {:induction false} TossCounts(vs: seq<Vdesc>, protect: nat, ss: seq<nat>, vdescs: seq<Vdesc>,
                                      periods: seq<Period>, vblocknrs: seq<nat>)
    requires Judged(vdescs, periods, vblocknrs, vs, protect, ss)
    ensures |vdescs| + |vblocknrs| == |vs|
  {
    hide Survivors, Freed, SameCover, Gapped, Deletable;
    Conservation(vs, protect, ss, |vs|);
    assert |vdescs| == |multiset(vdescs)| == |Survivors(vs, protect, ss, |vs|)|;
  }

  lemma {:induction false} SameSize<T>(a: seq<T>, b: seq<T>)
    requires multiset(a) == multiset(b)
    ensures |a| == |b|
  {
    assert |a| == |multiset(a)| == |b|;
  }

  /**
   The safety of collection: whatever the descriptors are, the checkpoints that a faithful request
   deletes are neither snapshots nor protected, given that the life of every block starts no earlier
   than its own checkpoint.
   */
  lemma {:induction false} RequestSafe(req: Request, vs: seq<Vdesc>, bs: seq<Bdesc>, protect: nat, ss: seq<nat>,
                                       accepted: seq<nat>)
    requires Faithful(req, vs, bs, protect, ss, accepted)
    requires forall i :: 0 <= i < |vs| && vs[i].cno != 0 ==> vs[i].period.start >= vs[i].cno
    ensures forall p :: p in req.periods ==> Harmless(p, protect, ss)
  {
    hide Survivors, Freed, Deletable, SameCover, Gapped, Harmless;
    UnifiedHarmless(vs, protect, ss, req.periods);
  }

  /** The number is that of a dead block: an overwritten one of a metadata file, or one whose own life is harmless. */
  ghost predicate FreedSafely(n: nat, vs: seq<Vdesc>, protect: nat, ss: seq<nat>) {
    exists k :: 0 <= k < |vs| && vs[k].vblocknr == n && !Live(vs[k], protect, ss)
                && (if vs[k].cno == 0 then vs[k].period.end != CNO_MAX else Harmless(vs[k].period, protect, ss))
  }

  /** Every number that a faithful request frees is one of these, under the same rule. */
  lemma {:induction false} FreedSafe(vs: seq<Vdesc>, protect: nat, ss: seq<nat>, n: nat, freed: nat)
    requires forall i :: 0 <= i < |vs| && vs[i].cno != 0 ==> vs[i].period.start >= vs[i].cno
    requires n <= |vs| && freed in Freed(vs, protect, ss, n)
    ensures FreedSafely(freed, vs, protect, ss)
  {
    if freed in Freed(vs, protect, ss, n - 1) {
      FreedSafe(vs, protect, ss, n - 1, freed);
    } else {
      var v := vs[n - 1];
      assert v.vblocknr == freed && !Live(v, protect, ss);
      if v.cno != 0 {
        DeadHarmless(v, protect, ss);
      }
    }
  }

  /** The life of every block starts no earlier than its own checkpoint. */
  ghost predicate DatRule(lives: nat -> Period, vs: seq<Vdesc>) {
    forall v :: v in vs && v.cno != 0 ==> lives(v.vblocknr).start >= v.cno
  }

  /** The request deletes no snapshot and no protected checkpoint, nor any block that one of these needs. */
  ghost predicate Safe(req: Request, vs: seq<Vdesc>, protect: nat, ss: seq<nat>) {
    && (forall p :: p in req.periods ==> Harmless(p, protect, ss))
    && (forall n :: n in req.vblocknrs ==> FreedSafely(n, vs, protect, ss))
  }

  lemma {:induction false} RunSafe(req: Request, svs: seq<Vdesc>, lives: nat -> Period, bs: seq<Bdesc>, protect: nat,
                                   ss: seq<nat>,
                                   accepted: seq<nat>, vdescs: seq<Vdesc>)
    requires Faithful(req, Filled(svs, lives), bs, protect, ss, accepted)
    requires multiset(svs) == multiset(vdescs) && DatRule(lives, vdescs)
    ensures Safe(req, Filled(svs, lives), protect, ss)
  {
    hide Survivors, Freed, Deletable, SameCover, Gapped, Harmless, FreedSafely, LiveBdescs;
    var vs := Filled(svs, lives);
    forall i | 0 <= i < |vs| && vs[i].cno != 0 ensures vs[i].period.start >= vs[i].cno {
      assert svs[i] in multiset(vdescs);
    }
    RequestSafe(req, vs, bs, protect, ss, accepted);
    forall n | n in req.vblocknrs ensures FreedSafely(n, vs, protect, ss) {
      FreedSafe(vs, protect, ss, |vs|, n);
    }
  }

  // ----- the same in terms of the parameters and the list of checkpoints -----

  /** The number is to be kept: it is a snapshot's, or not below the protected number, if one is given. */
  ghost predicate Needed(cps: seq<Cpinfo>, params: Params, x: nat) {
    (params.hasProtcno && params.protcno <= x) || exists k :: 0 <= k < |cps| && cps[k].snapshot && cps[k].cno == x
  }

  ghost predicate HoldsNeeded(cps: seq<Cpinfo>, params: Params, p: Period) {
    exists x: nat :: p.start <= x < p.end && Needed(cps, params, x)
  }

  /** No requested period holds a number to be kept, and the life of no freed block, but for overwritten metadata. */
  ghost predicate Spares(req: Request, lives: nat -> Period, vdescs: seq<Vdesc>, cps: seq<Cpinfo>, params: Params) {
    && (forall p :: p in req.periods ==> !HoldsNeeded(cps, params, p))
    && (forall n :: n in req.vblocknrs ==>
          exists v :: v in vdescs && v.vblocknr == n &&
                      if v.cno == 0 then lives(n).end != CNO_MAX else !HoldsNeeded(cps, params, lives(n)))
  }

  /** The block is to be moved: its life goes on, or holds a number to be kept. */
  ghost predicate Stays(v: Vdesc, life: Period, cps: seq<Cpinfo>, params: Params) {
    life.end == CNO_MAX || (v.cno != 0 && HoldsNeeded(cps, params, life))
  }

  /** Every block that is to stay is moved, every other one with a life is freed, and so is all overwritten metadata. */
  ghost predicate Accounts(req: Request, lives: nat -> Period, vdescs: seq<Vdesc>, cps: seq<Cpinfo>, params: Params) {
    forall v :: v in vdescs ==>
      var life := lives(v.vblocknr);
      && (Stays(v, life, cps, params) && life.end != v.cno ==> v.(period := life) in req.vdescs)
      && (!Stays(v, life, cps, params) && life.end < CNO_MAX && (v.cno == 0 || life.start < life.end) ==>
            v.vblocknr in req.vblocknrs)
  }

  /** Of the blocks of the DAT exactly those are moved that are where the kernel says they are. */
  ghost predicate MovesCurrent(req: Request, current: Bdesc -> nat, bdescs: seq<Bdesc>) {
    && (forall b :: b in bdescs ==> (b.(blocknr := current(b)) in req.bdescs <==> current(b) == b.oblocknr))
    && (forall d :: d in req.bdescs ==> exists b :: b in bdescs && d == b.(blocknr := current(b)))
  }

  lemma {:induction false} SnapshotNumbers(cps: seq<Cpinfo>, x: nat)
    ensures x in Cnos(Snapshots(cps)) <==> exists k :: 0 <= k < |cps| && cps[k].snapshot && cps[k].cno == x
  {
    SnapshotsOf(cps, |cps|);
    assert cps[..|cps|] == cps;
    var ss := Snapshots(cps);
    if x in Cnos(ss) {
      var i :| 0 <= i < |ss| && Cnos(ss)[i] == x;
      assert ss[i] in ss;
    }
    if k :| 0 <= k < |cps| && cps[k].snapshot && cps[k].cno == x {
      assert cps[k] in ss;
      var i :| 0 <= i < |ss| && ss[i] == cps[k];
      assert Cnos(ss)[i] == x;
    }
  }

  /** What harmless means for the parameters. */
  lemma {:induction false} HarmlessMeans(cps: seq<Cpinfo>, params: Params, p: Period)
    ensures Harmless(p, Protcno(params), Cnos(Snapshots(cps))) ==> !HoldsNeeded(cps, params, p)
    ensures !HoldsNeeded(cps, params, p) && (params.hasProtcno || p.end <= CNO_MAX) ==>
              Harmless(p, Protcno(params), Cnos(Snapshots(cps)))
  {
    var ss := Cnos(Snapshots(cps));
    forall x: nat ensures x in ss <==> exists k :: 0 <= k < |cps| && cps[k].snapshot && cps[k].cno == x {
      SnapshotNumbers(cps, x);
    }
    hide Snapshots, Cnos;
    if !HoldsNeeded(cps, params, p) {
      assert p.start < p.end ==> !Needed(cps, params, p.end - 1);
      forall x | p.start <= x < p.end ensures x !in ss {
        assert !Needed(cps, params, x);
      }
    } else {
      var x: nat :| p.start <= x < p.end && Needed(cps, params, x);
      assert x in ss || x >= Protcno(params);
    }
  }

  /** A safe request spares what is to be kept. */
  lemma {:induction false} SafeSpares(req: Request, svs: seq<Vdesc>, lives: nat -> Period, cps: seq<Cpinfo>,
                                      params: Params,
                                      vdescs: seq<Vdesc>)
    requires Safe(req, Filled(svs, lives), Protcno(params), Cnos(Snapshots(cps))) && multiset(svs) == multiset(vdescs)
    ensures Spares(req, lives, vdescs, cps, params)
  {
    hide Harmless, HoldsNeeded, Protcno, Cnos, Snapshots, Live;
    var vs, protect, ss := Filled(svs, lives), Protcno(params), Cnos(Snapshots(cps));
    forall p | p in req.periods ensures !HoldsNeeded(cps, params, p) {
      HarmlessMeans(cps, params, p);
    }
    forall n | n in req.vblocknrs
      ensures exists v :: v in vdescs && v.vblocknr == n &&
                          if v.cno == 0 then lives(n).end != CNO_MAX else !HoldsNeeded(cps, params, lives(n))
    {
      assert FreedSafely(n, vs, protect, ss);
      var k :| 0 <= k < |vs| && vs[k].vblocknr == n
               && (if vs[k].cno == 0 then vs[k].period.end != CNO_MAX else Harmless(vs[k].period, protect, ss));
      HarmlessMeans(cps, params, lives(n));
      assert svs[k] in multiset(vdescs);
    }
  }

  /** A faithful request accounts for every block. */
  lemma {:induction false} FaithfulAccounts(req: Request, svs: seq<Vdesc>, lives: nat -> Period, bs: seq<Bdesc>,
                                            cps: seq<Cpinfo>, params: Params, accepted: seq<nat>, vdescs: seq<Vdesc>)
    requires Faithful(req, Filled(svs, lives), bs, Protcno(params), Cnos(Snapshots(cps)), accepted)
    requires multiset(svs) == multiset(vdescs)
    ensures Accounts(req, lives, vdescs, cps, params)
  {
    hide Faithful, HoldsNeeded, Protcno, Cnos, Snapshots, Live, Harmless;
    var vs, protect, ss := Filled(svs, lives), Protcno(params), Cnos(Snapshots(cps));
    forall v | v in vdescs
      ensures var life := lives(v.vblocknr);
              && (Stays(v, life, cps, params) && life.end != v.cno ==> v.(period := life) in req.vdescs)
              && (!Stays(v, life, cps, params) && life.end < CNO_MAX && (v.cno == 0 || life.start < life.end) ==>
                    v.vblocknr in req.vblocknrs)
    {
      assert v in multiset(svs);
      var k :| 0 <= k < |svs| && svs[k] == v;
      RequestComplete(req, vs, bs, protect, ss, accepted, k);
      HarmlessMeans(cps, params, vs[k].period);
      LiveByLife(vs[k], protect, ss);
    }
  }

  /** The judgement of a block by its life. */
  lemma {:induction false} LiveByLife(v: Vdesc, protect: nat, ss: seq<nat>)
    ensures v.cno == 0 ==> (Live(v, protect, ss) <==> v.period.end == CNO_MAX)
    ensures v.cno != 0 && v.period.end != v.cno ==>
              (v.period.end == CNO_MAX || !Harmless(v.period, protect, ss) ==> Live(v, protect, ss))
    ensures v.cno != 0 && v.period.end != CNO_MAX && v.period.start < v.period.end &&
            Harmless(v.period, protect, ss) ==>
              !Live(v, protect, ss)
  {
    if Holds(v.period, ss) {
      var k :| 0 <= k < |ss| && v.period.start <= ss[k] < v.period.end;
      NotHarmless(v.period, protect, ss, ss[k]);
    } else {
      forall x | v.period.start <= x < v.period.end ensures x !in ss {
        assert forall k :: 0 <= k < |ss| ==> !(v.period.start <= ss[k] < v.period.end);
      }
    }
  }

  lemma {:induction false} CurrentMoved(req: Request, sbs: seq<Bdesc>, current: Bdesc -> nat, bdescs: seq<Bdesc>)
    requires req.bdescs == LiveBdescs(Looked(sbs, current), |sbs|) && multiset(sbs) == multiset(bdescs)
    ensures MovesCurrent(req, current, bdescs)
  {
    var bs := Looked(sbs, current);
    LiveBdescsExactly(bs, |bs|);
    forall b | b in bdescs ensures b.(blocknr := current(b)) in req.bdescs <==> current(b) == b.oblocknr {
      assert b in multiset(sbs);
      var k :| 0 <= k < |sbs| && sbs[k] == b;
      assert bs[k] == b.(blocknr := current(b));
    }
    forall d | d in req.bdescs ensures exists b :: b in bdescs && d == b.(blocknr := current(b)) {
      var k :| 0 <= k < |bs| && bs[k] == d;
      assert sbs[k] in multiset(bdescs);
    }
  }

  /** What a request does to the blocks that it is about. */
  lemma {:induction false} RequestMeans(req: Request, svs: seq<Vdesc>, sbs: seq<Bdesc>, kernel: Kernel,
                                        cps: seq<Cpinfo>,
                                        params: Params, accepted: seq<nat>, vdescs: seq<Vdesc>, bdescs: seq<Bdesc>)
    requires Faithful(req, Filled(svs, kernel.lives), Looked(sbs, kernel.current), Protcno(params),
                      Cnos(Snapshots(cps)),
                      accepted)
    requires multiset(svs) == multiset(vdescs) && multiset(sbs) == multiset(bdescs)
    ensures Accounts(req, kernel.lives, vdescs, cps, params) && MovesCurrent(req, kernel.current, bdescs)
    ensures DatRule(kernel.lives, vdescs) ==>
              && Safe(req, Filled(svs, kernel.lives), Protcno(params), Cnos(Snapshots(cps)))
              && Spares(req, kernel.lives, vdescs, cps, params)
  {
    hide Judged, Accounts, MovesCurrent, DatRule, Safe, Spares, Filled, LiveBdescs, Protcno, Cnos, Snapshots;
    FaithfulAccounts(req, svs, kernel.lives, Looked(sbs, kernel.current), cps, params, accepted, vdescs);
    CurrentMoved(req, sbs, kernel.current, bdescs);
    if DatRule(kernel.lives, vdescs) {
      RunSafe(req, svs, kernel.lives, Looked(sbs, kernel.current), Protcno(params), Cnos(Snapshots(cps)), accepted,
              vdescs);
      SafeSpares(req, svs, kernel.lives, cps, params, vdescs);
    }
  }

  /** A faithful request moves exactly the live blocks: each block is moved or freed. */
  lemma {:induction false} RequestComplete(req: Request, vs: seq<Vdesc>, bs: seq<Bdesc>, protect: nat, ss: seq<nat>,
                                           accepted: seq<nat>, k: nat)
    requires Faithful(req, vs, bs, protect, ss, accepted) && k < |vs|
    ensures Live(vs[k], protect, ss) ==> vs[k] in req.vdescs
    ensures !Live(vs[k], protect, ss) ==> vs[k].vblocknr in req.vblocknrs
  {
    hide Live, SameCover, Gapped, Deletable;
    InSurvivors(vs, protect, ss, |vs|, k);
    assert vs[k] in multiset(Survivors(vs, protect, ss, |vs|)) <==> vs[k] in multiset(req.vdescs);
  }

  lemma {:induction false} InSurvivors(vs: seq<Vdesc>, protect: nat, ss: seq<nat>, n: nat, k: nat)
    requires k < n <= |vs|
    ensures Live(vs[k], protect, ss) ==> vs[k] in Survivors(vs, protect, ss, n)
    ensures !Live(vs[k], protect, ss) ==> vs[k].vblocknr in Freed(vs, protect, ss, n)
  {
    hide Live;
    if k < n - 1 {
      InSurvivors(vs, protect, ss, n - 1, k);
    }
  }

  /** The reclaiming side of the nilfs object, for segments of `perSegment` blocks. */
  class Reclaimer {
    const nilfs: Nilfs
    const perSegment: nat
    var setSuinfo: bool    // the option to update usage information is on

    constructor (nilfs: Nilfs, perSegment: nat, setSuinfo: bool) {
      this.nilfs, this.perSegment, this.setSuinfo := nilfs, perSegment, setSuinfo;
    }

    /**
     Too little to gain: the segments are marked instead of cleaned, unless the kernel cannot do
     that; then the option is dropped and the segments are cleaned after all.
     */
    method Postpone(params: Params, n: nat, reclaimable: nat, segnums: array<nat>, stat: ReclaimStat, ghost nsegs: nat)
      returns (stop: bool, ret: int, updates: seq<nat>)
      requires n <= segnums.Length && stat.cleaned == n && stat.deferred == 0 && stat.Segments(nsegs, n)
      modifies `setSuinfo, stat`deferred, stat`cleaned
      ensures setSuinfo ==> old(setSuinfo)
      ensures stop ==> params.hasMin && old(setSuinfo) && reclaimable < params.minReclaimable * n && setSuinfo
      ensures stop ==> stat.deferred == n && stat.cleaned == 0
      ensures !stop ==> updates == [] && stat.cleaned == n && stat.deferred == 0
      ensures !stop ==>
                setSuinfo == (old(setSuinfo) && !(params.hasMin && reclaimable < params.minReclaimable * n))
      ensures updates != [] ==> stop && ret == 0
      ensures updates == [] || updates == segnums[..n]
      ensures stat.Segments(nsegs, n)
    {
      updates := [];
      if params.hasMin && setSuinfo && reclaimable < params.minReclaimable * n {
        stat.deferred, stat.cleaned := n, 0;
        if * {
          return true, -1, [];    // the time is not available
        }
        if * {
          return true, 0, [];     // no memory for the updates
        }
        if * {
          return true, 0, segnums[..n];
        }
        if * {
          return true, -1, [];    // an error other than ENOTTY
        }
        setSuinfo := false;
        stat.deferred, stat.cleaned := 0, n;
      }
      return false, 0, [];
    }

    /** get_bdesc and toss_bdescs */
    method JudgeBdescs(kernel: Kernel, bdescv: Vector<Bdesc>) returns (ok: bool, ghost sbs: seq<Bdesc>)
      requires bdescv.Valid()
      modifies bdescv, bdescv.data
      ensures bdescv.Valid() && bdescv.nelems <= old(bdescv.nelems)
      ensures ok ==> multiset(sbs) == multiset(old(bdescv.Contents())) && ByInode(sbs)
      ensures ok ==> bdescv.Contents() == LiveBdescs(Looked(sbs, kernel.current), |sbs|)
    {
      hide ByInode, Looked, LiveBdescs;
      ok, sbs := GetBdesc(bdescv, kernel);
      if ok {
        SameSize(sbs, old(bdescv.Contents()));
        TossBdescs(bdescv);
        assert bdescv.nelems == |bdescv.Contents()|;
      }
    }

    /** The middle of nilfs_xreclaim_segment: tosses the dead descriptors of both kinds and counts blocks. */
    method Judge(kernel: Kernel, vdescv: Vector<Vdesc>, bdescv: Vector<Bdesc>, periodv: Vector<Period>,
                 vblocknrv: Vector<nat>,
                 protcno: nat, n: nat, stat: ReclaimStat)
      returns (ok: bool, reclaimable: nat, ghost svs: seq<Vdesc>, ghost sbs: seq<Bdesc>)
      requires nilfs.Valid()
      requires vdescv.Valid() && bdescv.Valid() && periodv.Valid() && vblocknrv.Valid() &&
               (periodv.data as object) != vblocknrv.data
      requires periodv.Contents() == [] && vblocknrv.Contents() == []
      requires |vdescv.Contents()| + |bdescv.Contents()| <= perSegment * n
      modifies nilfs`mincno, vdescv, vdescv.data, bdescv, bdescv.data, periodv, periodv.data, vblocknrv, vblocknrv.data
      modifies stat`liveV, stat`defunctV, stat`freedV, stat`liveP, stat`defunctP, stat`live, stat`defunct
      ensures nilfs.Valid() && vdescv.Valid() && bdescv.Valid() && periodv.Valid() && vblocknrv.Valid()
      ensures ok ==> stat.Blocks(old(vdescv.nelems), old(bdescv.nelems), perSegment * n) && reclaimable == stat.defunct
      ensures ok ==> multiset(svs) == multiset(old(vdescv.Contents())) &&
              multiset(sbs) == multiset(old(bdescv.Contents()))
      ensures ok ==> ByNumber(svs) && ByInode(sbs)
      ensures ok ==> Judged(vdescv.Contents(), periodv.Contents(), vblocknrv.Contents(), Filled(svs, kernel.lives),
                            protcno, Cnos(Snapshots(nilfs.cps)))
      ensures ok ==> bdescv.Contents() == LiveBdescs(Looked(sbs, kernel.current), |sbs|)
    {
      hide ByNumber, ByInode, Nilfs.Valid, Judged, Filled, Looked, LiveBdescs, Snapshots, Cnos;
      reclaimable, sbs := 0, [];
      var nblocks := vdescv.nelems;
      ok, svs := TossVirtual(nilfs, kernel, vdescv, periodv, vblocknrv, protcno);
      if !ok {
        return;
      }
      stat.CountVirtual(nblocks, vdescv.nelems, vblocknrv.nelems);
      SameSize(svs, old(vdescv.Contents()));
      TossCounts(Filled(svs, kernel.lives), protcno, Cnos(Snapshots(nilfs.cps)), vdescv.Contents(), periodv.Contents(),
                 vblocknrv.Contents());
      nblocks := bdescv.nelems;
      ok, sbs := JudgeBdescs(kernel, bdescv);
      if !ok {
        return;
      }
      reclaimable := (perSegment * n - (vdescv.nelems + bdescv.nelems)) % LIMIT32;
      stat.CountBlocks(nblocks, bdescv.nelems, reclaimable);
    }

    /** The blocks that the logs of the accepted segments describe. */
    ghost function Blocks(dev: Device, params: Params, segs: seq<nat>): seq<Block>
      requires ValidDevice(dev, perSegment)
    {
      Collection(dev, params.protseq, perSegment, segs, |segs|)
    }

    ghost function Taken(dev: Device, params: Params, segs: seq<nat>): seq<nat> {
      Accepted(dev, params.protseq, segs, |segs|)
    }

    /** The descriptors are those of the blocks, in some order. */
    ghost predicate Described(svs: seq<Vdesc>, sbs: seq<Bdesc>, blocks: seq<Block>) {
      && multiset(svs) == multiset(Vdescs(blocks)) && ByNumber(svs)
      && multiset(sbs) == multiset(Bdescs(blocks)) && ByInode(sbs)
    }

    ghost predicate BlocksCounted(stat: ReclaimStat, blocks: seq<Block>, taken: nat)
      reads stat
    {
      stat.Blocks(|Vdescs(blocks)|, |Bdescs(blocks)|, perSegment * taken)
    }

    /**
     nilfs_xreclaim_segment.  Once segments are counted, each is cleaned, deferred or protected; once
     blocks are counted, they add up; and if the kernel is asked to clean, then the request is faithful
     to what it answered about the blocks of the accepted segments, and safe if lives follow the rule.
     */
    method Xreclaim(dev: Device, kernel: Kernel, segnums: array<nat>, nsegs: nat, dryrun: bool, params: Params,
                    stat: ReclaimStat)
      returns (ret: int, request: Option<Request>, updates: seq<nat>, ghost stage: Stage,
               ghost segs: seq<nat>, ghost svs: seq<Vdesc>, ghost sbs: seq<Bdesc>)
      requires nilfs.Valid() && ValidDevice(dev, perSegment) && nsegs <= segnums.Length
      modifies segnums, nilfs`mincno, this`setSuinfo, stat
      ensures nilfs.Valid() && segs == old(segnums[..nsegs])
      ensures !params.hasProtseq || params.unknown ==> ret == -1 && stage.Started?
      ensures stage.Started? ==> request.None? && updates == [] && unchanged(stat) && unchanged(`setSuinfo)
      ensures !stage.Started? ==> segnums[..nsegs] == Arranged(dev, params.protseq, segs, |segs|)
      ensures !stage.Started? ==> stat.Segments(nsegs, |Taken(dev, params, segs)|)
      ensures stage.Tossed? ==> BlocksCounted(stat, Blocks(dev, params, segs), |Taken(dev, params, segs)|)
      ensures stage.Tossed? ==> Described(svs, sbs, Blocks(dev, params, segs))
      ensures request.Some? ==> stage.Tossed? && !dryrun && updates == [] && stat.deferred == 0
      ensures request.Some? ==>
                Faithful(request.value, Filled(svs, kernel.lives), Looked(sbs, kernel.current), Protcno(params),
                         Cnos(Snapshots(nilfs.cps)), Taken(dev, params, segs))
      ensures request.Some? && DatRule(kernel.lives, Vdescs(Blocks(dev, params, segs))) ==>
                Safe(request.value, Filled(svs, kernel.lives), Protcno(params), Cnos(Snapshots(nilfs.cps)))
      ensures request.Some? && DatRule(kernel.lives, Vdescs(Blocks(dev, params, segs))) ==>
                Spares(request.value, kernel.lives, Vdescs(Blocks(dev, params, segs)), nilfs.cps, params)
      ensures request.Some? ==>
                && Accounts(request.value, kernel.lives, Vdescs(Blocks(dev, params, segs)), nilfs.cps, params)
                && MovesCurrent(request.value, kernel.current, Bdescs(Blocks(dev, params, segs)))
      ensures stage.Started? ==> ret == if params.hasProtseq && !params.unknown && nsegs == 0 then 0 else -1
      ensures stage.Counted? ==> request.None? && updates == []
      ensures stage.Counted? ==> ret == if Taken(dev, params, segs) == [] then 0 else -1
      ensures stage.Tossed? ==>
                Weighed(params, |Taken(dev, params, segs)|, Taken(dev, params, segs), dryrun, old(setSuinfo), stat, ret,
                        request, updates)
      ensures !stage.Started? ==> multiset(segnums[..nsegs]) == multiset(segs)
      ensures request.Some? ==>
                var n := |request.value.segnums|;
                && n <= nsegs && request.value.segnums == segnums[..n]
                && (forall j :: 0 <= j < n ==> Takable(dev, segnums[j], params.protseq))
                && (forall j :: n <= j < nsegs ==> Refused(dev, segnums[j], params.protseq))
    {
      hide ByNumber, ByInode, Nilfs.Valid, ValidDevice, DatRule, Safe, Spares, Accounts, MovesCurrent, Protcno, Judged,
        Filled, Looked,
        LiveBdescs, Snapshots, Cnos,
        Takable, Refused, Arranged, Accepted, Rejected, Collection, Vdescs, Bdescs,
        ReclaimStat.Segments, ReclaimStat.Blocks, Taken, Blocks;
      segs := segnums[..nsegs];
      ret, request, updates, stage, svs, sbs := -1, None, [], Started, [], [];
      if !params.hasProtseq || params.unknown {
        return;
      }
      if nsegs == 0 {
        ret := 0;
        return;
      }
      if * {
        return;    // no memory, or the cleaner is not to be locked
      }
      var vdescv := new Vector<Vdesc>(VDESC_SIZE);
      var bdescv := new Vector<Bdesc>(BDESC_SIZE);
      var n;
      n, segs := CountSegments(dev, segnums, nsegs, params, vdescv, bdescv, stat);
      if n < 0 {
        return;
      }
      stage := Counted;
      ArrangedPermutes(dev, params.protseq, segs, |segs|);
      if n == 0 {
        ret := 0;
        return;
      }
      ghost var tossed;
      ret, request, updates, tossed, svs, sbs :=
        JudgeAndAsk(kernel, vdescv, bdescv, n, segnums, dryrun, params, stat, nsegs);
      if tossed {
        stage := Tossed;
      }
      if request.Some? {
        RequestMeans(request.value, svs, sbs, kernel, nilfs.cps, params, Taken(dev, params, segs),
                     Vdescs(Blocks(dev, params, segs)), Bdescs(Blocks(dev, params, segs)));
      }
    }

    /**
     What is done about n tossed segments: nothing in a dry run; if they hold too little to gain, they are all deferred
     and their times updated, unless the kernel turns out not to know how; otherwise they are cleaned.
     */
    ghost predicate Weighed(params: Params, n: nat, taken: seq<nat>, dryrun: bool, couldDefer: bool, stat: ReclaimStat,
                            ret: int, request: Option<Request>, updates: seq<nat>)
      reads `setSuinfo, stat`defunct, stat`deferred, stat`cleaned
    {
      var tooLittle := params.hasMin && couldDefer && stat.defunct < params.minReclaimable * n;
      && (setSuinfo ==> couldDefer)
      && (dryrun ==> ret == 0 && request.None? && updates == [] && stat.deferred == 0 && setSuinfo == couldDefer)
      && (request.Some? ==> stat.deferred == 0 && stat.cleaned == n && setSuinfo == (couldDefer && !tooLittle))
      && (stat.deferred != 0 ==> tooLittle && setSuinfo && stat.deferred == n && stat.cleaned == 0)
      && (updates != [] ==> tooLittle && stat.deferred == n && ret == 0 && updates == taken)
    }

    /** nilfs_xreclaim_segment after the segments have been counted */
    method JudgeAndAsk(kernel: Kernel, vdescv: Vector<Vdesc>, bdescv: Vector<Bdesc>, n: nat, segnums: array<nat>,
                       dryrun: bool, params: Params,
                       stat: ReclaimStat, ghost nsegs: nat)
      returns (ret: int, request: Option<Request>, updates: seq<nat>, ghost tossed: bool, ghost svs: seq<Vdesc>,
               ghost sbs: seq<Bdesc>)
      requires nilfs.Valid() && vdescv.Valid() && bdescv.Valid() && n <= segnums.Length
      requires |vdescv.Contents()| + |bdescv.Contents()| <= perSegment * n
      requires stat.Segments(nsegs, n) && stat.cleaned == n && stat.deferred == 0
      modifies vdescv, vdescv.data, bdescv, bdescv.data, nilfs`mincno, this`setSuinfo, stat
      ensures nilfs.Valid() && stat.Segments(nsegs, n)
      ensures tossed ==> stat.Blocks(old(vdescv.nelems), old(bdescv.nelems), perSegment * n)
      ensures tossed ==> ByNumber(svs) && ByInode(sbs)
      ensures tossed ==> multiset(svs) == multiset(old(vdescv.Contents()))
      ensures tossed ==> multiset(sbs) == multiset(old(bdescv.Contents()))
      ensures !tossed ==> request.None? && updates == [] && ret == -1
      ensures tossed ==> Weighed(params, n, segnums[..n], dryrun, old(setSuinfo), stat, ret, request, updates)
      ensures request.Some? ==> !dryrun && updates == [] && stat.deferred == 0
      ensures request.Some? ==>
                Faithful(request.value, Filled(svs, kernel.lives), Looked(sbs, kernel.current), Protcno(params),
                         Cnos(Snapshots(nilfs.cps)), segnums[..n])
    {
      hide ByNumber, ByInode, Nilfs.Valid, Judged, Filled, Looked, LiveBdescs, Snapshots, Cnos, ReclaimStat.Segments,
        ReclaimStat.Blocks;
      ret, request, updates, tossed := -1, None, [], false;
      var periodv := new Vector<Period>(PERIOD_SIZE);
      var vblocknrv := new Vector<nat>(VBLOCKNR_SIZE);
      var ok, reclaimable;
      ok, reclaimable, svs, sbs := Judge(kernel, vdescv, bdescv, periodv, vblocknrv, Protcno(params), n, stat);
      if !ok {
        return;
      }
      tossed := true;
      if dryrun {
        ret := 0;
        return;
      }
      if * {
        ret := *;    // an interrupt is pending, or it is not known whether one is
        return;
      }
      var stop;
      stop, ret, updates := Postpone(params, n, reclaimable, segnums, stat, nsegs);
      if stop {
        return;
      }
      request := Some(Request(vdescv.Contents(), periodv.Contents(), vblocknrv.Contents(), bdescv.Contents(),
                              segnums[..n]));
      ret := *;
    }

    /** nilfs_acc_blocks and the first statistics */
    method CountSegments(dev: Device, segnums: array<nat>, nsegs: nat, params: Params, vdescv: Vector<Vdesc>,
                         bdescv: Vector<Bdesc>, stat: ReclaimStat)
      returns (n: int, ghost segs: seq<nat>)
      requires ValidDevice(dev, perSegment) && nsegs <= segnums.Length
      requires vdescv.Valid() && bdescv.Valid() && vdescv.Contents() == [] && bdescv.Contents() == []
      requires (segnums as object) != vdescv.data && (segnums as object) != bdescv.data
      modifies segnums, vdescv, vdescv.data, bdescv, bdescv.data
      modifies stat`cleaned, stat`protected, stat`deferred
      ensures vdescv.Valid() && (fresh(vdescv.data) || vdescv.data == old(vdescv.data))
      ensures bdescv.Valid() && (fresh(bdescv.data) || bdescv.data == old(bdescv.data))
      ensures segs == old(segnums[..nsegs])
      ensures n >= 0 ==> segnums[..nsegs] == Arranged(dev, params.protseq, segs, |segs|)
      ensures n >= 0 ==> n == |Taken(dev, params, segs)| <= nsegs && segnums[..n] == Taken(dev, params, segs)
      ensures n >= 0 ==> stat.Segments(nsegs, n) && stat.cleaned == n && stat.deferred == 0
      ensures n >= 0 ==> forall j :: 0 <= j < n ==> Takable(dev, segnums[j], params.protseq)
      ensures n >= 0 ==> forall j :: n <= j < nsegs ==> Refused(dev, segnums[j], params.protseq)
      ensures n >= 0 ==> vdescv.Contents() == Vdescs(Blocks(dev, params,
                                                            segs)) && bdescv.Contents() ==
                                                                Bdescs(Blocks(dev, params, segs))
      ensures n >= 0 ==> |vdescv.Contents()| + |bdescv.Contents()| <= perSegment * n
      ensures n < 0 ==> unchanged(stat)
    {
      hide Takable, Refused, Accepted, Rejected, Collection, ValidDevice, Vdescs, Bdescs;
      ghost var tail := segnums[nsegs..];
      segs := segnums[..nsegs];
      ghost var examined;
      n, examined := AccBlocks(dev, segnums, nsegs, params.protseq, perSegment, vdescv, bdescv);
      if n >= 0 {
        CollectionFits(dev, params.protseq, perSegment, segs, nsegs);
        FirstPart(segnums[..], Arranged(dev, params.protseq, segs, nsegs), tail,
                  Accepted(dev, params.protseq, segs, nsegs), Rejected(dev, params.protseq, segs, nsegs));
        stat.cleaned := n;
        stat.protected := nsegs - n;
        stat.deferred := 0;
      }
    }
  }

  lemma {:induction false} FirstPart(now: seq<nat>, arranged: seq<nat>, tail: seq<nat>, a: seq<nat>, r: seq<nat>)
    requires now == arranged + tail && arranged == a + [] + r
    ensures now[..|arranged|] == arranged && now[..|a|] == a
  {
  }

  // the sizes of the elements
  const VDESC_SIZE: nat := 64
  const BDESC_SIZE: nat := 40
  const PERIOD_SIZE: nat := 16
  const VBLOCKNR_SIZE: nat := 8
}
