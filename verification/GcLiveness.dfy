/** Which virtual blocks the collector may drop: the judgement and the snapshots it depends on. */
module GcLiveness {
  import opened Wrappers
  import opened Checkpoints
  import opened BlockCollect

  const GC_NCPINFO: nat := 512

  ghost predicate Increasing(ss: seq<nat>) {
    forall i, j :: 0 <= i < j < |ss| ==> ss[i] < ss[j]
  }

  /** Some number of `ss` lies in the half-open period. */
  predicate Holds(p: Period, ss: seq<nat>) {
    exists k :: 0 <= k < |ss| && p.start <= ss[k] < p.end
  }

  /**
   What the judgement means: blocks of the metadata files (number 0) live until they are
   overwritten; a block overwritten in its own log is dead; otherwise a block lives while it is
   current, or until a protected checkpoint, or when some snapshot refers to it.
   */
  predicate Live(v: Vdesc, protect: nat, ss: seq<nat>) {
    if v.cno == 0 then v.period.end == CNO_MAX
    else v.period.end != v.cno && (v.period.end == CNO_MAX || v.period.end > protect || Holds(v.period, ss))
  }

  ghost predicate HitOk(hit: nat, ss: seq<nat>) { hit == 0 || hit in ss }

  /**
   nilfs_vdesc_is_live: a last hit that is no real snapshot (the initial 0) never makes a block live,
   and whatever the search stores as the last hit is a snapshot.
   */
  method VdescIsLive(v: Vdesc, protect: nat, ss: seq<nat>, lastHit: nat) returns (live: bool, hit: nat)
    requires Increasing(ss) && HitOk(lastHit, ss)
    ensures live <==> Live(v, protect, ss)
    ensures HitOk(hit, ss)
  {
    hit := lastHit;
    var n := |ss|;
    if v.cno == 0 {
      return v.period.end == CNO_MAX, hit;
    }
    if v.period.end == v.cno {
      return false, hit;
    }
    if v.period.end == CNO_MAX || v.period.end > protect {
      return true, hit;
    }
    if n == 0 || v.period.start > ss[n - 1] || v.period.end <= ss[0] {
      return false, hit;
    }
    if hit >= v.period.start && hit < v.period.end {
      assert hit == 0 ==> v.period.start <= ss[0] < v.period.end;
      return true, hit;
    }
    var low: int, high: int := 0, n - 1;
    while low <= high
      invariant 0 <= low <= n && -1 <= high < n
      invariant forall k :: 0 <= k < low ==> ss[k] < v.period.start
      invariant forall k :: high < k < n ==> v.period.end <= ss[k]
      decreases high - low
    {
      var index := (low + high) / 2;
      if ss[index] < v.period.start {
        low := index + 1;
      } else if ss[index] >= v.period.end {
        high := index - 1;
      } else {
        return true, ss[index];
      }
    }
    live := false;
  }

  // ----- snapshots -----

  function Cnos(cps: seq<Cpinfo>): (r: seq<nat>)
    ensures |r| == |cps|
  {
    seq(|cps|, i requires 0 <= i < |cps| => cps[i].cno)
  }

  /** The snapshots are the checkpoints of the list that are marked as such. */
  lemma {:induction false} SnapshotsOf(cps: seq<Cpinfo>, n: nat)
    requires n <= |cps|
    ensures forall cp :: cp in SnapshotsUpTo(cps, n) <==> cp in cps[..n] && cp.snapshot
  {
    if n > 0 {
      SnapshotsOf(cps, n - 1);
      assert cps[..n] == cps[..n - 1] + [cps[n - 1]];
    }
  }

  lemma {:induction false} SnapshotsAscending(cps: seq<Cpinfo>, n: nat)
    requires Ascending(cps) && n <= |cps|
    ensures Ascending(SnapshotsUpTo(cps, n))
    ensures forall i :: 0 <= i < |SnapshotsUpTo(cps, n)| ==>
            exists k :: 0 <= k < n && SnapshotsUpTo(cps, n)[i] == cps[k]
  {
    if n > 0 {
      SnapshotsAscending(cps, n - 1);
      var before := SnapshotsUpTo(cps, n - 1);
      if cps[n - 1].snapshot {
        forall i | 0 <= i < |before| ensures Older(before[i], cps[n - 1]) {
          var k :| 0 <= k < n - 1 && before[i] == cps[k];
          assert Older(cps[k], cps[n - 1]);
        }
      }
    }
  }

  /** A snapshot query from a snapshot on answers that one and those after it. */
  lemma {:induction false} SnapshotBatch(cps: seq<Cpinfo>, i: nat, cno: nat, count: nat)
    requires Ascending(cps) && i < |Snapshots(cps)|
    requires cno == if i == 0 then 0 else Snapshots(cps)[i].cno
    ensures SnapshotQuery(cps, cno, count) == Snapshots(cps)[i..Min(i + count, |Snapshots(cps)|)]
  {
    SnapshotsAscending(cps, |cps|);
    if i > 0 {
      RankOf(Snapshots(cps), i);
    }
  }

  lemma {:induction false} SnapshotAfter(cps: seq<Cpinfo>, i: nat)
    requires Ascending(cps) && i < |Snapshots(cps)|
    ensures NextSnapshot(cps, Snapshots(cps)[i].cno) == if i + 1 < |Snapshots(cps)| then Snapshots(cps)[i + 1].cno
            else 0
    ensures Snapshots(cps)[i].cno >= CNO_MIN
    ensures i > 0 ==> Snapshots(cps)[i - 1].cno < Snapshots(cps)[i].cno
  {
    SnapshotsAscending(cps, |cps|);
    RankOf(Snapshots(cps), i);
    assert i > 0 ==> Older(Snapshots(cps)[i - 1], Snapshots(cps)[i]);
  }

  /** The inner loop: the numbers of a batch, refused when they do not rise. */
  method AddBatch(ss0: seq<nat>, prev0: nat, batch: seq<Cpinfo>) returns (ss: seq<nat>, prev: nat, ok: bool)
    ensures ok <==> forall j :: 0 <= j < |batch| ==> (if j == 0 then prev0 else batch[j - 1].cno) < batch[j].cno
    ensures ok ==> ss == ss0 + Cnos(batch) && prev == if batch == [] then prev0 else batch[|batch| - 1].cno
  {
    ss, prev := ss0, prev0;
    for j := 0 to |batch|
      invariant ss == ss0 + Cnos(batch[..j])
      invariant prev == if j == 0 then prev0 else batch[j - 1].cno
      invariant forall k :: 0 <= k < j ==> (if k == 0 then prev0 else batch[k - 1].cno) < batch[k].cno
    {
      ss := ss + [batch[j].cno];
      if prev >= batch[j].cno {
        return ss, prev, false;
      }
      prev := batch[j].cno;
    }
    assert batch[..|batch|] == batch;
    ok := true;
  }

  /** The next snapshots are added to those found so far. */
  method TakeBatch(nilfs: Nilfs, ss0: seq<nat>, prev0: nat, batch: seq<Cpinfo>)
    returns (ss: seq<nat>, prev: nat, ok: bool)
    requires Ascending(nilfs.cps) && batch != []
    requires |ss0| + |batch| <= |Snapshots(nilfs.cps)| && ss0 == Cnos(Snapshots(nilfs.cps)[..|ss0|])
    requires batch == Snapshots(nilfs.cps)[|ss0|..|ss0| + |batch|]
    requires prev0 == if ss0 == [] then 0 else Snapshots(nilfs.cps)[|ss0| - 1].cno
    ensures ok && |ss| == |ss0| + |batch| && ss == Cnos(Snapshots(nilfs.cps)[..|ss|])
    ensures prev == batch[|batch| - 1].cno == Snapshots(nilfs.cps)[|ss| - 1].cno
  {
    hide Ascending, Snapshots, NextSnapshot;
    ghost var all, before := Snapshots(nilfs.cps), |ss0|;
    forall j | 0 <= j < |batch| ensures (if j == 0 then prev0 else batch[j - 1].cno) < batch[j].cno {
      SnapshotAfter(nilfs.cps, before + j);
    }
    ss, prev, ok := AddBatch(ss0, prev0, batch);
    if ok {
      CnosConcat(all, before, |ss|);
    }
  }

  /** nilfs_get_snapshot: when the queries succeed, all snapshots, in order. */
  method GetSnapshot(nilfs: Nilfs) returns (r: Option<seq<nat>>)
    requires nilfs.Valid()
    modifies nilfs`mincno
    ensures nilfs.Valid()
    ensures r.Some? ==> r.value == Cnos(Snapshots(nilfs.cps))
  {
    hide Ascending, Snapshots, SnapshotQuery, NextSnapshot, Nilfs.Valid, Rank;
    ghost var all := Snapshots(nilfs.cps);
    NilfsAscending(nilfs);
    var stat := nilfs.GetCpstat();
    if stat.nsss == 0 {
      return Some([]);
    }
    var ss: seq<nat>, prev, cno := [], 0, 0;
    while |ss| < stat.nsss
      invariant nilfs.Valid() && Ascending(nilfs.cps)
      invariant |ss| <= |all| && ss == Cnos(all[..|ss|])
      invariant prev == if ss == [] then 0 else all[|ss| - 1].cno
      invariant |ss| < |all| ==> cno == if ss == [] then 0 else all[|ss|].cno
    {
      var batch := nilfs.GetCpinfo(cno, SnapshotMode, GC_NCPINFO);
      if batch.None? {
        return None;
      }
      SnapshotBatch(nilfs.cps, |ss|, cno, GC_NCPINFO);
      if batch.value == [] {
        break;
      }
      var ok;
      ss, prev, ok := TakeBatch(nilfs, ss, prev, batch.value);
      if !ok {
        return None;
      }
      cno := NextSnapshot(nilfs.cps, batch.value[|batch.value| - 1].cno);
      SnapshotAfter(nilfs.cps, |ss| - 1);
      if cno == 0 {
        if |ss| < |all| {
          SnapshotAfter(nilfs.cps, |ss|);
        }
        break;
      }
    }
    return Some(ss);
  }

  lemma {:induction false} NilfsAscending(nilfs: Nilfs)
    requires nilfs.Valid()
    ensures Ascending(nilfs.cps)
  {
  }

  lemma {:induction false} CnosConcat(cps: seq<Cpinfo>, i: nat, j: nat)
    requires i <= j <= |cps|
    ensures Cnos(cps[..i]) + Cnos(cps[i..j]) == Cnos(cps[..j])
  {
  }

  /** The snapshots are what the judgement asks for: rising numbers, so none is 0. */
  lemma {:induction false} SnapshotsIncrease(cps: seq<Cpinfo>)
    requires Ascending(cps)
    ensures Increasing(Cnos(Snapshots(cps)))
  {
    SnapshotsAscending(cps, |cps|);
    var all := Snapshots(cps);
    forall i, j | 0 <= i < j < |all| ensures Cnos(all)[i] < Cnos(all)[j] {
      assert Older(all[i], all[j]);
    }
  }
}
