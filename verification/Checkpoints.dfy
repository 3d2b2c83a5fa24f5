/**
 The kernel's checkpoint list and the two queries the tools make on it.

 The kernel is an oracle: `cps` is the list it holds at the moment of a call.  A query answers
 the first `count` checkpoints numbered at least `cno`, in ascending order, or fails.
 */
module Checkpoints {
  import opened Wrappers

  const CNO_MIN: nat := 1
  const CNO_MAX: nat := 0xFFFF_FFFF_FFFF_FFFF

  datatype Cpinfo = Cpinfo(cno: nat, create: nat, snapshot: bool, minor: bool)

  function Min(a: nat, b: nat): nat { if a < b then a else b }

  function Max(a: nat, b: nat): nat { if a < b then b else a }

  predicate Older(a: Cpinfo, b: Cpinfo) { a.cno < b.cno }

  ghost predicate Ascending(cps: seq<Cpinfo>) {
    && (forall i :: 0 <= i < |cps| ==> CNO_MIN <= cps[i].cno < CNO_MAX)
    && (forall i, j {:trigger Older(cps[i], cps[j])} :: 0 <= i < j < |cps| ==> Older(cps[i], cps[j]))
  }

  /** The number of checkpoints numbered below `bound`. */
  function Rank(cps: seq<Cpinfo>, bound: nat): (r: nat)
    ensures r <= |cps|
  {
    RankUpTo(cps, bound, |cps|)
  }

  function RankUpTo(cps: seq<Cpinfo>, bound: nat, n: nat): (r: nat)
    requires n <= |cps|
    ensures r <= n
  {
    if n == 0 || cps[n - 1].cno < bound then n else RankUpTo(cps, bound, n - 1)
  }

  lemma {:induction false} RankUpToAt(cps: seq<Cpinfo>, bound: nat, n: nat, i: nat)
    requires Ascending(cps) && i < n <= |cps|
    ensures cps[i].cno < bound <==> i < RankUpTo(cps, bound, n)
  {
    assert i < n - 1 ==> Older(cps[i], cps[n - 1]);
    if cps[n - 1].cno >= bound && i < n - 1 {
      RankUpToAt(cps, bound, n - 1, i);
    }
  }

  /** What Rank is for: it separates the numbers below the bound from the others. */
  lemma {:induction false} RankAt(cps: seq<Cpinfo>, bound: nat, i: nat)
    requires Ascending(cps) && i < |cps|
    ensures cps[i].cno < bound <==> i < Rank(cps, bound)
  {
    RankUpToAt(cps, bound, |cps|, i);
  }

  lemma {:induction false} RankOf(cps: seq<Cpinfo>, i: nat)
    requires Ascending(cps) && i < |cps|
    ensures Rank(cps, cps[i].cno) == i && Rank(cps, cps[i].cno + 1) == i + 1
  {
    RankAt(cps, cps[i].cno, i);
    RankAt(cps, cps[i].cno + 1, i);
    if i > 0 {
      assert Older(cps[i - 1], cps[i]);
      RankAt(cps, cps[i].cno, i - 1);
    }
    if i + 1 < |cps| {
      assert Older(cps[i], cps[i + 1]);
      RankAt(cps, cps[i].cno + 1, i + 1);
    }
  }

  /** The kernel's answer to a checkpoint query. */
  function Query(cps: seq<Cpinfo>, cno: nat, count: nat): (buf: seq<Cpinfo>)
    ensures |buf| <= count
    ensures Ascending(cps) ==> Ascending(buf)
  {
    var lo := Rank(cps, cno);
    cps[lo..Min(lo + count, |cps|)]
  }

  /** The snapshots among the first `n` checkpoints, oldest first. */
  function SnapshotsUpTo(cps: seq<Cpinfo>, n: nat): (ss: seq<Cpinfo>)
    requires n <= |cps|
    ensures |ss| <= n
  {
    if n == 0 then []
    else if cps[n - 1].snapshot then SnapshotsUpTo(cps, n - 1) + [cps[n - 1]]
    else SnapshotsUpTo(cps, n - 1)
  }

  /** All snapshots, oldest first. */
  function Snapshots(cps: seq<Cpinfo>): seq<Cpinfo> {
    SnapshotsUpTo(cps, |cps|)
  }

  /** The kernel's answer to a snapshot query: from the first snapshot on when the number is 0. */
  function SnapshotQuery(cps: seq<Cpinfo>, cno: nat, count: nat): (buf: seq<Cpinfo>)
    ensures |buf| <= count
  {
    var ss := Snapshots(cps);
    if cno == 0 then ss[..Min(count, |ss|)] else Query(ss, cno, count)
  }

  /** The number of the next snapshot after `cno`, or 0: the kernel's ci_next. */
  function NextSnapshot(cps: seq<Cpinfo>, cno: nat): nat {
    var ss := Snapshots(cps);
    var r := Rank(ss, cno + 1);
    if r < |ss| then ss[r].cno else 0
  }

  /** A window of numbers holds no more checkpoints than it has numbers. */
  lemma {:induction false} WindowBound(cps: seq<Cpinfo>, first: nat, last: nat)
    requires Ascending(cps)
    requires first <= last
    ensures Rank(cps, first) <= Rank(cps, last) <= Rank(cps, first) + (last - first)
    decreases last
  {
    if first < last {
      WindowBound(cps, first, last - 1);
      var r := Rank(cps, last - 1);
      if r < |cps| {
        RankAt(cps, last - 1, r);
        RankAt(cps, last, r);
      }
      if r + 1 < |cps| {
        assert Older(cps[r], cps[r + 1]);
        RankAt(cps, last, r + 1);
      }
      if r > 0 {
        RankAt(cps, last - 1, r - 1);
        RankAt(cps, last, r - 1);
      }
    }
  }

  /** Checkpoint statistics, as nilfs_get_cpstat reports them. */
  datatype Cpstat = Cpstat(cno: nat, ncps: nat, nsss: nat)

  datatype Mode = CheckpointMode | SnapshotMode

  /** The part of the nilfs object that the checkpoint queries use. */
  class Nilfs {
    var cps: seq<Cpinfo>     // the kernel's list; only the kernel changes it
    var nextCno: nat         // the number the next checkpoint will get
    var mincno: nat          // cached lower bound on valid numbers

    /**
     What the kernel guarantees (a sorted list whose newest member is nextCno - 1), plus the
     invariant of the cached lower bound.
     */
    ghost predicate Valid()
      reads this
    {
      && Ascending(cps)
      && CNO_MIN <= nextCno <= CNO_MAX
      && (forall i :: 0 <= i < |cps| ==> mincno <= cps[i].cno < nextCno)
      && (|cps| > 0 ==> cps[|cps| - 1].cno == nextCno - 1)
      && CNO_MIN <= mincno <= nextCno
    }

    function GetCpstat(): (stat: Cpstat)
      reads this
    {
      Cpstat(nextCno, |cps|, |Snapshots(cps)|)
    }

    /** The ioctl itself: the kernel's answer, or a failure. */
    method Ioctl(cno: nat, mode: Mode, nci: nat) returns (buf: Option<seq<Cpinfo>>)
      ensures mode.CheckpointMode? && buf.Some? ==> buf.value == Query(cps, cno, nci)
      ensures mode.SnapshotMode? && buf.Some? ==> buf.value == SnapshotQuery(cps, cno, nci)
    {
      if * {
        return None;
      }
      if mode.CheckpointMode? {
        return Some(Query(cps, cno, nci));
      }
      return Some(SnapshotQuery(cps, cno, nci));
    }

    /**
     nilfs_get_cpinfo.  The clamp to the cached minimum and the raising of that minimum never
     change an answer: it is the kernel's answer to the number that was asked for.
     */
    method GetCpinfo(cno: nat, mode: Mode, nci: nat) returns (buf: Option<seq<Cpinfo>>)
      requires Valid()
      modifies this`mincno
      ensures Valid()
      ensures old(mincno) <= mincno
      ensures mode.CheckpointMode? && cno < CNO_MIN ==> buf == None
      ensures mode.CheckpointMode? && buf.Some? ==> buf.value == Query(cps, cno, nci)
      ensures mode.SnapshotMode? && buf.Some? ==> buf.value == SnapshotQuery(cps, cno, nci)
    {
      var start := cno;
      if mode.CheckpointMode? {
        if cno < CNO_MIN {
          return None;
        } else if cno < mincno {
          start := mincno;
          if |cps| > 0 {
            RankAt(cps, cno, 0);
            RankAt(cps, start, 0);
          }
        }
      }
      buf := Ioctl(start, mode, nci);
      if mode.CheckpointMode? && buf.Some? && |buf.value| > 0 && start == mincno {
        RankAt(cps, start, 0);
        assert buf.value[0] == cps[0];
        if buf.value[0].cno > mincno {
          assert forall i :: 0 < i < |cps| ==> Older(cps[0], cps[i]);
          mincno := buf.value[0].cno;
        }
      }
    }
  }
}
