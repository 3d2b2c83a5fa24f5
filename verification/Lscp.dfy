/** Listing snapshots in either direction, as lscp does it over a buffer of 512 checkpoints. */
module Lscp {
  import opened Wrappers
  import opened Checkpoints
  import opened CheckpointWalk
  import opened GcLiveness

  /** `count` snapshots downwards from the k-th one. */
  function Downwards(ss: seq<Cpinfo>, k: nat, count: nat): (r: seq<Cpinfo>)
    requires count <= k <= |ss|
    ensures |r| == count
  {
    seq(count, j requires 0 <= j < count => ss[k - 1 - j])
  }

  lemma {:induction false} DownwardsNext(ss: seq<Cpinfo>, k: nat, count: nat)
    requires count < k <= |ss|
    ensures Downwards(ss, k, count + 1) == Downwards(ss, k, count) + [ss[k - 1 - count]]
  {
  }

  /** The number of snapshots numbered below the bound. */
  function Below(cps: seq<Cpinfo>, bound: nat): (k: nat)
    ensures k <= |Snapshots(cps)|
  {
    PrefixOfSnapshots(cps, Rank(cps, bound), |cps|);
    |SnapshotsUpTo(cps, Rank(cps, bound))|
  }

  lemma {:induction false} PrefixOfSnapshots(cps: seq<Cpinfo>, q: nat, n: nat)
    requires q <= n <= |cps|
    ensures SnapshotsUpTo(cps, q) <= SnapshotsUpTo(cps, n)
  {
    if q < n {
      PrefixOfSnapshots(cps, q, n - 1);
    }
  }

  /** What Below is for. */
  lemma {:induction false} BelowAt(cps: seq<Cpinfo>, bound: nat, j: nat)
    requires Ascending(cps) && j < |Snapshots(cps)|
    ensures Snapshots(cps)[j].cno < bound <==> j < Below(cps, bound)
  {
    var q := Rank(cps, bound);
    PrefixOfSnapshots(cps, q, |cps|);
    if j < Below(cps, bound) {
      SnapshotsAscending(cps, q);
      var k :| 0 <= k < q && SnapshotsUpTo(cps, q)[j] == cps[k];
      RankAt(cps, bound, k);
    } else {
      var i := SnapshotIndex(cps, q, |cps|, j);
      RankAt(cps, bound, i);
    }
  }

  /** Where a snapshot that is not among the first q checkpoints is. */
  lemma {:induction false} SnapshotIndex(cps: seq<Cpinfo>, q: nat, n: nat, j: nat) returns (i: nat)
    requires q <= n <= |cps| && |SnapshotsUpTo(cps, q)| <= j < |SnapshotsUpTo(cps, n)|
    ensures q <= i < n && cps[i] == SnapshotsUpTo(cps, n)[j]
  {
    if j < |SnapshotsUpTo(cps, n - 1)| {
      i := SnapshotIndex(cps, q, n - 1, j);
    } else {
      i := n - 1;
    }
  }

  /** One checkpoint of the downward listing. */
  lemma {:induction false} StepDown(cps: seq<Cpinfo>, q: nat)
    requires 0 < q <= |cps|
    ensures |SnapshotsUpTo(cps, q)| == |SnapshotsUpTo(cps, q - 1)| + (if cps[q - 1].snapshot then 1 else 0)
    ensures cps[q - 1].snapshot ==>
            |SnapshotsUpTo(cps, q)| <= |Snapshots(cps)| && Snapshots(cps)[|SnapshotsUpTo(cps, q)| - 1] == cps[q - 1]
  {
    PrefixOfSnapshots(cps, q, |cps|);
  }

  // ----- downwards -----

  /**
   So far the snapshots in order from the k-th one down have been listed, and those among the first q
   checkpoints are left.
   */
  ghost predicate Listed(cps: seq<Cpinfo>, printed: seq<Cpinfo>, k: nat, q: nat) {
    && |printed| <= k <= |Snapshots(cps)| && q <= |cps|
    && printed == Downwards(Snapshots(cps), k, |printed|)
    && |SnapshotsUpTo(cps, q)| == k - |printed|
  }

  lemma {:induction false} ListedNext(cps: seq<Cpinfo>, printed: seq<Cpinfo>, k: nat, q: nat)
    requires Listed(cps, printed, k, q) && q > 0
    ensures Listed(cps, if cps[q - 1].snapshot then printed + [cps[q - 1]] else printed, k, q - 1)
  {
    StepDown(cps, q);
    if cps[q - 1].snapshot {
      DownwardsNext(Snapshots(cps), k, |printed|);
    }
  }

  lemma {:induction false} ListedStart(cps: seq<Cpinfo>, bound: nat)
    ensures Listed(cps, [], Below(cps, bound), Rank(cps, bound))
  {
  }

  /** The inner loop: lists the snapshots of a window from the end, as long as some are wanted. */
  method ListWindow(ghost cps: seq<Cpinfo>, buf: seq<Cpinfo>, eidx0: nat, rest0: nat, printed0: seq<Cpinfo>,
                    ghost b: nat, ghost k: nat)
    returns (eidx: nat, rest: nat, printed: seq<Cpinfo>)
    requires Ascending(cps) && b + |buf| <= |cps| && buf == cps[b..b + |buf|]
    requires b <= Rank(cps, eidx0) <= b + |buf| && Listed(cps, printed0, k, Rank(cps, eidx0)) && rest0 > 0
    ensures rest <= rest0 && rest + |printed| == rest0 + |printed0|
    ensures |printed| <= k <= |Snapshots(cps)| && printed == Downwards(Snapshots(cps), k, |printed|)
    ensures rest > 0 ==> Listed(cps, printed, k, b)
  {
    hide Ascending, Listed, Rank, Snapshots;
    eidx, rest, printed := eidx0, rest0, printed0;
    ghost var hi := Rank(cps, eidx0);
    ListedFacts(cps, printed, k, hi);
    var n, i := |buf|, 0;
    WindowRank(cps, buf, b, eidx);
    while i < n && rest > 0
      invariant i <= n && rest <= rest0 && rest + |printed| == rest0 + |printed0|
      invariant Listed(cps, printed, k, Min(b + n - i, hi))
      invariant forall p: nat :: p < n - i ==> (buf[p].cno < eidx <==> b + p < hi)
    {
      var p := n - i - 1;
      var cp := buf[p];
      assert cp == cps[b + p];
      if cp.cno < eidx {
        ListedNext(cps, printed, k, b + p + 1);
        if cp.snapshot {
          printed := printed + [cp];
          Falling(cps, buf, b, p);
          eidx := cp.cno;
          rest := rest - 1;
        }
      }
      i := i + 1;
    }
    ListedFacts(cps, printed, k, Min(b + n - i, hi));
  }

  lemma {:induction false} ListedFacts(cps: seq<Cpinfo>, printed: seq<Cpinfo>, k: nat, q: nat)
    requires Listed(cps, printed, k, q)
    ensures |printed| <= k <= |Snapshots(cps)| && printed == Downwards(Snapshots(cps), k, |printed|)
  {
  }

  lemma {:induction false} WindowRank(cps: seq<Cpinfo>, buf: seq<Cpinfo>, b: nat, bound: nat)
    requires Ascending(cps) && b + |buf| <= |cps| && buf == cps[b..b + |buf|]
    ensures forall p: nat :: p < |buf| ==> (buf[p].cno < bound <==> b + p < Rank(cps, bound))
  {
    forall p: nat | p < |buf| ensures buf[p].cno < bound <==> b + p < Rank(cps, bound) {
      RankAt(cps, bound, b + p);
    }
  }

  lemma {:induction false} Falling(cps: seq<Cpinfo>, buf: seq<Cpinfo>, b: nat, p: nat)
    requires Ascending(cps) && b + |buf| <= |cps| && buf == cps[b..b + |buf|] && p < |buf|
    ensures forall j: nat :: j < p ==> buf[j].cno < buf[p].cno
  {
    forall j: nat | j < p ensures buf[j].cno < buf[p].cno {
      assert Older(cps[b + j], cps[b + p]);
    }
  }

  /** The rest of the listing from one snapshot query: the last loop of lscp_backward_ssinfo. */
  method ListRemainder(ghost cps: seq<Cpinfo>, buf: seq<Cpinfo>, eidx: nat, rest0: nat, printed0: seq<Cpinfo>,
                       ghost k: nat, ghost limit: nat)
    returns (printed: seq<Cpinfo>)
    requires Ascending(cps) && |buf| <= |Snapshots(cps)| && buf == Snapshots(cps)[..|buf|]
    requires Below(cps, eidx) <= |buf| && k == |printed0| + Below(cps, eidx) && k <= |Snapshots(cps)|
    requires printed0 == Downwards(Snapshots(cps), k, |printed0|) && limit == |printed0| + rest0
    ensures printed == Downwards(Snapshots(cps), k, Min(limit, k))
  {
    hide Ascending, Snapshots, Below, Downwards;
    printed := printed0;
    ghost var r := Below(cps, eidx);
    var n, i, rest: nat := |buf|, 0, rest0;
    while i < n && rest > 0
      invariant i <= n && rest + |printed| == limit
      invariant |printed| == k - Min(n - i, r)
      invariant printed == Downwards(Snapshots(cps), k, |printed|)
    {
      var cp := buf[n - i - 1];
      BelowAt(cps, eidx, n - i - 1);
      if cp.cno < eidx {
        DownwardsNext(Snapshots(cps), k, |printed|);
        printed := printed + [cp];
        rest := rest - 1;
      }
      i := i + 1;
    }
  }

  /** lscp_get_cpinfo: never more than the buffer holds */
  method Get(nilfs: Nilfs, cno: nat, mode: Mode, count: nat) returns (buf: Option<seq<Cpinfo>>)
    requires nilfs.Valid()
    modifies nilfs`mincno
    ensures nilfs.Valid()
    ensures mode.CheckpointMode? && buf.Some? ==> buf.value == Query(nilfs.cps, cno, Min(count, NCPINFO))
    ensures mode.SnapshotMode? && buf.Some? ==> buf.value == SnapshotQuery(nilfs.cps, cno, Min(count, NCPINFO))
  {
    buf := nilfs.GetCpinfo(cno, mode, Min(count, NCPINFO));
  }

  // ----- what a listing is, in terms of the list and the options -----

  /** The requested number, if it is one, is not exceeded. */
  ghost predicate UpTo(cp: Cpinfo, index: nat, nextCno: nat) { 0 < index < nextCno ==> cp.cno <= index }

  /**
   Newest first, each once, no more than the requested number of lines if one is given, and of what is
   wanted up to the requested number nothing is left out, unless it is older and the lines are used up.
   */
  ghost predicate ListsDown(cps: seq<Cpinfo>, nextCno: nat, wanted: Cpinfo -> bool, index: nat, lines: nat,
                            printed: seq<Cpinfo>)
  {
    && (forall i, j :: 0 <= i < j < |printed| ==> Older(printed[j], printed[i]))
    && (lines > 0 ==> |printed| <= lines)
    && (forall cp :: cp in printed ==> cp in cps && wanted(cp) && UpTo(cp, index, nextCno))
    && (forall cp :: cp in cps && wanted(cp) && UpTo(cp, index, nextCno) && cp !in printed ==>
          lines > 0 && |printed| == lines && forall q :: q in printed ==> Older(cp, q))
  }

  /** The same upwards, from the requested number on. */
  ghost predicate ListsUp(cps: seq<Cpinfo>, wanted: Cpinfo -> bool, index: nat, lines: nat, printed: seq<Cpinfo>) {
    && (forall i, j :: 0 <= i < j < |printed| ==> Older(printed[i], printed[j]))
    && (lines > 0 ==> |printed| <= lines)
    && (forall cp :: cp in printed ==> cp in cps && wanted(cp) && index <= cp.cno)
    && (forall cp :: cp in cps && wanted(cp) && index <= cp.cno && cp !in printed ==>
          lines > 0 && |printed| == lines && forall q :: q in printed ==> Older(q, cp))
  }

  const IsSnapshot: Cpinfo -> bool := (cp: Cpinfo) => cp.snapshot

  /** Membership in two parts of an ascending list. */
  lemma {:induction false} TwoParts(ss: seq<Cpinfo>, a: nat, b: nat, c: nat)
    requires Ascending(ss) && a <= b <= c <= |ss|
    ensures forall p, q :: p in ss[a..b] && q in ss[b..c] ==> Older(p, q)
  {
    forall p, q | p in ss[a..b] && q in ss[b..c] ensures Older(p, q) {
      var i :| 0 <= i < b - a && ss[a..b][i] == p;
      var j :| 0 <= j < c - b && ss[b..c][j] == q;
      assert Older(ss[a + i], ss[b + j]);
    }
  }

  lemma {:induction false} DownwardsIs(ss: seq<Cpinfo>, k: nat, count: nat)
    requires Ascending(ss) && count <= k <= |ss|
    ensures var printed := Downwards(ss, k, count);
            && (forall i, j :: 0 <= i < j < |printed| ==> Older(printed[j], printed[i]))
            && (forall cp :: cp in printed <==> cp in ss[k - count..k])
  {
    var printed := Downwards(ss, k, count);
    forall i, j | 0 <= i < j < count ensures Older(printed[j], printed[i]) {
      assert Older(ss[k - 1 - j], ss[k - 1 - i]);
    }
    hide Ascending;
    var part := ss[k - count..k];
    forall i | 0 <= i < count ensures printed[i] in part && part[i] in printed {
      assert printed[i] == part[count - 1 - i] && part[i] == printed[count - 1 - i];
    }
  }

  /** The snapshots below a number are those in front of the position that Below gives. */
  lemma {:induction false} BelowParts(cps: seq<Cpinfo>, bound: nat)
    requires Ascending(cps)
    ensures var ss, k := Snapshots(cps), Below(cps, bound);
            && Ascending(ss)
            && (forall cp :: cp in ss[..k] <==> cp in cps && cp.snapshot && cp.cno < bound)
            && (forall cp :: cp in ss[k..] <==> cp in cps && cp.snapshot && bound <= cp.cno)
  {
    var ss, k := Snapshots(cps), Below(cps, bound);
    SnapshotsOf(cps, |cps|);
    assert cps[..|cps|] == cps;
    SnapshotsAscending(cps, |cps|);
    forall j | 0 <= j < |ss| ensures ss[j].cno < bound <==> j < k {
      BelowAt(cps, bound, j);
    }
    hide Snapshots, Below, Ascending;
    assert ss == ss[..k] + ss[k..];
    assert forall cp :: cp in ss[..k] ==> cp.cno < bound;
    assert forall cp :: cp in ss[k..] ==> bound <= cp.cno;
  }

  lemma {:induction false} DownwardsLists(cps: seq<Cpinfo>, nextCno: nat, index: nat, lines: nat)
    requires Ascending(cps) && forall i :: 0 <= i < |cps| ==> cps[i].cno < nextCno
    ensures var ss, k := Snapshots(cps), Below(cps, Bound(index, nextCno));
            ListsDown(cps, nextCno, IsSnapshot, index, lines, Downwards(ss, k, Min(Lines(lines, |ss|), k)))
  {
    var ss, k := Snapshots(cps), Below(cps, Bound(index, nextCno));
    BelowParts(cps, Bound(index, nextCno));
    assert forall cp :: cp in cps ==> (cp.cno < Bound(index, nextCno) <==> UpTo(cp, index, nextCno));
    hide Snapshots, Below, Ascending, Downwards, Bound, UpTo;
    var count := Min(Lines(lines, |ss|), k);
    DownwardsIs(ss, k, count);
    TwoParts(ss, 0, k - count, k);
    assert ss[..k] == ss[0..k - count] + ss[k - count..k];
    assert count < k ==> lines > 0 && count == lines;
  }

  lemma {:induction false} LastOfPart(ss: seq<Cpinfo>, at: nat, part: seq<Cpinfo>)
    requires at + |part| <= |ss| && part == ss[at..at + |part|] && part != []
    ensures part[|part| - 1] == ss[at + |part| - 1]
  {
  }

  lemma {:induction false} UpwardsIs(ss: seq<Cpinfo>, k: nat, count: nat)
    requires Ascending(ss) && k + count <= |ss|
    ensures var printed := Upwards(ss, k, count);
            printed == ss[k..k + count] && forall i, j :: 0 <= i < j < |printed| ==> Older(printed[i], printed[j])
  {
    var printed := Upwards(ss, k, count);
    forall i, j | 0 <= i < j < |printed| ensures Older(printed[i], printed[j]) {
      assert Older(ss[k + i], ss[k + j]);
    }
  }

  lemma {:induction false} UpwardsLists(cps: seq<Cpinfo>, index: nat, lines: nat)
    requires Ascending(cps)
    ensures var ss, k := Snapshots(cps), Below(cps, index);
            ListsUp(cps, IsSnapshot, index, lines, Upwards(ss, k, Min(Lines(lines, |ss|), |ss| - k)))
  {
    var ss, k := Snapshots(cps), Below(cps, index);
    BelowParts(cps, index);
    hide Snapshots, Below, Ascending, Upwards;
    var count := Min(Lines(lines, |ss|), |ss| - k);
    UpwardsIs(ss, k, count);
    TwoParts(ss, k, k + count, |ss|);
    assert ss[k..] == ss[k..k + count] + ss[k + count..|ss|];
    assert k + count < |ss| ==> lines > 0 && count == lines;
  }

  /** The shown checkpoints below position hi. */
  lemma {:induction false} ShownLists(cps: seq<Cpinfo>, hi: nat, rest: nat, showAll: bool)
    requires Ascending(cps) && hi <= |cps|
    ensures var printed := ShownDown(cps, hi, rest, showAll);
            && (forall i, j :: 0 <= i < j < |printed| ==> Older(printed[j], printed[i]))
            && (forall cp :: cp in printed ==> cp in cps[..hi] && Wanted(showAll)(cp))
            && (forall cp :: cp in cps[..hi] && Wanted(showAll)(cp) && cp !in printed ==>
                  |printed| == rest && forall q :: q in printed ==> Older(cp, q))
            && |printed| <= hi && (forall cp :: cp in cps[..hi] && cp !in printed ==> |printed| < hi)
    decreases hi
  {
    if hi > 0 && rest > 0 {
      var last, shown := cps[hi - 1], Shown(cps[hi - 1], showAll);
      var more := ShownDown(cps, hi - 1, if shown then rest - 1 else rest, showAll);
      ShownLists(cps, hi - 1, if shown then rest - 1 else rest, showAll);
      assert cps[..hi] == cps[..hi - 1] + [last];
      forall cp | cp in cps[..hi - 1] ensures Older(cp, last) {
        var i :| 0 <= i < hi - 1 && cps[i] == cp;
        assert Older(cps[i], cps[hi - 1]);
      }
    }
  }

  /** Minor checkpoints that are no snapshots are listed only on request. */
  function Wanted(showAll: bool): Cpinfo -> bool { (cp: Cpinfo) => showAll || cp.snapshot || !cp.minor }

  lemma {:induction false} BackwardLists(cps: seq<Cpinfo>, nextCno: nat, index: nat, lines: nat, showAll: bool)
    requires Ascending(cps) && forall i :: 0 <= i < |cps| ==> cps[i].cno < nextCno
    ensures ListsDown(cps, nextCno, Wanted(showAll), index, lines,
                      ShownDown(cps, BackwardStart(cps, nextCno, index), Limit(lines, |cps|), showAll))
  {
    hide ShownDown, Ascending;
    var hi, rest := BackwardStart(cps, nextCno, index), Limit(lines, |cps|);
    ShownLists(cps, hi, rest, showAll);
    var printed := ShownDown(cps, hi, rest, showAll);
    forall i | 0 <= i < |cps| ensures UpTo(cps[i], index, nextCno) <==> i < hi {
      RankAt(cps, if 0 < index < nextCno then index + 1 else nextCno, i);
    }
    hide BackwardStart, Rank;
    forall cp | cp in cps ensures UpTo(cp, index, nextCno) <==> cp in cps[..hi] {
      var i :| 0 <= i < |cps| && cps[i] == cp;
      if UpTo(cp, index, nextCno) {
        assert cps[..hi][i] == cp;
      } else {
        assert forall j :: 0 <= j < hi ==> cps[j] != cp;
      }
    }
  }

  /** Where a downward listing starts: above the requested number, or at the newest checkpoint. */
  function Bound(index: nat, nextCno: nat): nat { if index != 0 && index < nextCno then index + 1 else nextCno }

  /** How many lines are listed at most. */
  function Lines(lines: nat, total: nat): nat { if lines != 0 && lines < total then lines else total }

  /**
   lscp_backward_ssinfo: the snapshots from the bound down, each once, newest first, up to the
   requested number of lines, whether they come from windows or from the final query.
   */
  method BackwardSnapshots(nilfs: Nilfs, index: nat, lines: nat) returns (printed: seq<Cpinfo>, ok: bool)
    requires nilfs.Valid()
    modifies nilfs`mincno
    ensures nilfs.Valid()
    ensures ok ==>
              var ss, k := Snapshots(nilfs.cps), Below(nilfs.cps, Bound(index, nilfs.nextCno));
              printed == Downwards(ss, k, Min(Lines(lines, |ss|), k))
    ensures ok ==> ListsDown(nilfs.cps, nilfs.nextCno, IsSnapshot, index, lines, printed)
  {
    hide ListsDown, Snapshots, Below, Downwards, Ascending, Rank, Nilfs.Valid, Listed, Query, SnapshotQuery;
    NilfsAscending(nilfs);
    AllNumbered(nilfs);
    DownwardsLists(nilfs.cps, nilfs.nextCno, index, lines);
    var stat := nilfs.GetCpstat();
    var rns: nat := stat.nsss;
    var rest: nat := Lines(lines, rns);
    var eidx: nat := Bound(index, stat.cno);
    ghost var cps, limit, k := nilfs.cps, rest, Below(nilfs.cps, eidx);
    printed := [];
    ListedStart(cps, eidx);
    ghost var start := eidx;
    while rest > 0 && eidx > CNO_MIN
      invariant nilfs.Valid() && eidx <= start
      invariant rest + |printed| == limit && rns + |printed| == |Snapshots(cps)|
      invariant |printed| <= k <= |Snapshots(cps)| && printed == Downwards(Snapshots(cps), k, |printed|)
      invariant rest > 0 ==> Listed(cps, printed, k, Rank(cps, eidx))
    {
      if rns <= NCPINFO || eidx <= CNO_MIN + NCPINFO {
        var batch := Get(nilfs, 0, SnapshotMode, rns);
        if batch.None? {
          return printed, false;
        }
        RemainderHolds(cps, printed, k, eidx, rns, batch.value);
        printed := ListRemainder(cps, batch.value, eidx, rest, printed, k, limit);
        return printed, true;
      }
      var sidx := eidx - NCPINFO;
      var buf := Get(nilfs, sidx, CheckpointMode, eidx - sidx);
      if buf.None? {
        return printed, false;
      }
      WindowHolds(nilfs, sidx, eidx, start, buf.value);
      if buf.value == [] {
        break;
      }
      ghost var before := |printed|;
      var wanted := rest;
      eidx, rest, printed := ListWindow(cps, buf.value, eidx, rest, printed, Rank(cps, sidx), k);
      rns := rns - (wanted - rest);
      eidx := sidx;
    }
    if rest > 0 {
      ListedEnd(cps, printed, k, eidx);
    }
    ok := true;
  }

  /** The final query holds every snapshot below the bound. */
  lemma {:induction false} RemainderHolds(cps: seq<Cpinfo>, printed: seq<Cpinfo>, k: nat, eidx: nat, rns: nat,
                                          buf: seq<Cpinfo>)
    requires Ascending(cps) && Listed(cps, printed, k, Rank(cps, eidx)) && rns + |printed| == |Snapshots(cps)|
    requires rns <= NCPINFO || CNO_MIN <= eidx <= CNO_MIN + NCPINFO
    requires buf == SnapshotQuery(cps, 0, Min(rns, NCPINFO))
    ensures |buf| <= |Snapshots(cps)| && buf == Snapshots(cps)[..|buf|]
    ensures Below(cps, eidx) <= |buf| && k == |printed| + Below(cps, eidx)
  {
    hide Ascending;
    if rns > NCPINFO {
      WindowBound(cps, CNO_MIN, eidx);
      NoneBelowMin(cps);
    }
  }

  lemma {:induction false} NoneBelowMin(cps: seq<Cpinfo>)
    requires Ascending(cps)
    ensures Rank(cps, CNO_MIN) == 0
  {
    if Rank(cps, CNO_MIN) > 0 {
      RankAt(cps, CNO_MIN, 0);
      assert false;
    }
  }

  /** A window query holds every checkpoint of the window, and the newest checkpoint at least. */
  lemma {:induction false} WindowHolds(nilfs: Nilfs, sidx: nat, eidx: nat, start: nat, buf: seq<Cpinfo>)
    requires nilfs.Valid() && sidx < eidx <= nilfs.nextCno && |Snapshots(nilfs.cps)| > 0
    requires buf == Query(nilfs.cps, sidx, eidx - sidx)
    ensures var b := Rank(nilfs.cps, sidx);
            && buf != [] && b + |buf| <= |nilfs.cps| && buf == nilfs.cps[b..b + |buf|]
            && b <= Rank(nilfs.cps, eidx) <= b + |buf|
  {
    WindowBound(nilfs.cps, sidx, eidx);
    RankAt(nilfs.cps, sidx, |nilfs.cps| - 1);
  }

  lemma {:induction false} ListedEnd(cps: seq<Cpinfo>, printed: seq<Cpinfo>, k: nat, eidx: nat)
    requires Ascending(cps) && Listed(cps, printed, k, Rank(cps, eidx)) && eidx <= CNO_MIN
    ensures |printed| == k
  {
    if Rank(cps, eidx) > 0 {
      RankAt(cps, eidx, 0);
      assert false;
    }
  }

  // ----- upwards -----

  /** Without snapshots between them, two positions have the same snapshots before them. */
  lemma {:induction false} NoneBetween(cps: seq<Cpinfo>, b: nat, q: nat)
    requires b <= q <= |cps| && forall j :: b <= j < q ==> !cps[j].snapshot
    ensures SnapshotsUpTo(cps, q) == SnapshotsUpTo(cps, b)
  {
    if b < q {
      NoneBetween(cps, b, q - 1);
    }
  }

  /** Going on behind as many numbers as were answered skips no checkpoint. */
  lemma {:induction false} NothingSkipped(cps: seq<Cpinfo>, cno: nat, n: nat)
    requires Ascending(cps) && Rank(cps, cno) + n <= |cps|
    ensures Rank(cps, cno) <= Rank(cps, cno + n) <= Rank(cps, cno) + n
  {
    WindowBound(cps, cno, cno + n);
  }

  lemma {:induction false} AllBelow(nilfs: Nilfs, cno: nat)
    requires nilfs.Valid() && (cno >= nilfs.nextCno || Query(nilfs.cps, cno, 1) == [])
    ensures Below(nilfs.cps, cno) == |Snapshots(nilfs.cps)|
  {
    if |nilfs.cps| > 0 {
      RankAt(nilfs.cps, cno, |nilfs.cps| - 1);
    }
  }

  lemma {:induction false} FirstSnapshot(cps: seq<Cpinfo>, b: nat, i: nat)
    requires b + i < |cps| && cps[b + i].snapshot && forall j :: b <= j < b + i ==> !cps[j].snapshot
    ensures |SnapshotsUpTo(cps, b)| < |Snapshots(cps)| && Snapshots(cps)[|SnapshotsUpTo(cps, b)|] == cps[b + i]
  {
    NoneBetween(cps, b, b + i);
    StepDown(cps, b + i + 1);
  }

  /** The snapshot in the batch, if there is one. */
  method FindInBatch(buf: seq<Cpinfo>) returns (i: nat)
    ensures i <= |buf| && (forall j :: 0 <= j < i ==> !buf[j].snapshot) && (i < |buf| ==> buf[i].snapshot)
  {
    i := 0;
    while i < |buf|
      invariant i <= |buf| && forall j :: 0 <= j < i ==> !buf[j].snapshot
    {
      if buf[i].snapshot {
        return;
      }
      i := i + 1;
    }
  }

  datatype Found = Error | Nothing | At(cno: nat)

  /** lscp_search_snapshot: the first snapshot numbered at least `sidx`. */
  method SearchSnapshot(nilfs: Nilfs, sidx: nat) returns (r: Found)
    requires nilfs.Valid() && sidx > 0
    modifies nilfs`mincno
    ensures nilfs.Valid()
    ensures r.Nothing? ==> Below(nilfs.cps, sidx) == |Snapshots(nilfs.cps)|
    ensures r.At? ==> Below(nilfs.cps,
                            sidx) < |Snapshots(nilfs.cps)| && r.cno == Snapshots(nilfs.cps)[Below(nilfs.cps, sidx)].cno
  {
    hide Ascending, Rank, Nilfs.Valid, SnapshotsUpTo, Snapshots;
    NilfsAscending(nilfs);
    ghost var cps := nilfs.cps;
    var cno: nat, nreq: int := sidx, 1;
    while cno < nilfs.nextCno
      invariant nilfs.Valid() && cno > 0 && (cno < nilfs.nextCno ==> nreq >= 1)
      invariant Below(cps, cno) == Below(cps, sidx)
      decreases nilfs.nextCno - cno
    {
      var batch := Get(nilfs, cno, CheckpointMode, nreq);
      if batch.None? {
        return Error;
      }
      ghost var b, n := Rank(cps, cno), |batch.value|;
      assert b + n <= |cps| && batch.value == cps[b..b + n];
      var i := FindInBatch(batch.value);
      assert forall j :: b <= j < b + n ==> cps[j] == batch.value[j - b];
      if i < |batch.value| {
        FirstSnapshot(cps, b, i);
        return At(batch.value[i].cno);
      }
      if batch.value == [] {
        break;
      }
      NothingSkipped(cps, cno, n);
      NoneBetween(cps, b, Rank(cps, cno + n));
      cno := cno + |batch.value|;
      nreq := nilfs.nextCno - cno;
    }
    AllBelow(nilfs, cno);
    return Nothing;
  }

  /** `count` snapshots upwards from the k-th one. */
  function Upwards(ss: seq<Cpinfo>, k: nat, count: nat): (r: seq<Cpinfo>)
    requires k + count <= |ss|
    ensures |r| == count
  {
    ss[k..k + count]
  }

  lemma {:induction false} UpwardsJoin(ss: seq<Cpinfo>, k: nat, a: nat, b: nat)
    requires k + a + b <= |ss|
    ensures Upwards(ss, k, a) + ss[k + a..k + a + b] == Upwards(ss, k, a + b)
    ensures Upwards(ss, k, 0) == []
  {
  }

  /** A snapshot query from the j-th snapshot on. */
  lemma {:induction false} FromSnapshot(cps: seq<Cpinfo>, j: nat, sidx: nat, count: nat)
    requires Ascending(cps) && j < |Snapshots(cps)| && (sidx == Snapshots(cps)[j].cno || (j == 0 && sidx == 0))
    ensures SnapshotQuery(cps, sidx, count) == Snapshots(cps)[j..Min(j + count, |Snapshots(cps)|)]
    ensures Snapshots(cps)[j].cno >= CNO_MIN
  {
    SnapshotsAscending(cps, |cps|);
    RankOf(Snapshots(cps), j);
  }

  /**
   lscp_forward_ssinfo: the snapshots from the requested number up, oldest first, up to the requested
   number of lines.
   */
  method ForwardSnapshots(nilfs: Nilfs, index: nat, lines: nat) returns (printed: seq<Cpinfo>, ok: bool)
    requires nilfs.Valid()
    modifies nilfs`mincno
    ensures nilfs.Valid()
    ensures ok ==>
              var ss, k := Snapshots(nilfs.cps), Below(nilfs.cps, index);
              printed == Upwards(ss, k, Min(Lines(lines, |ss|), |ss| - k))
    ensures ok ==> ListsUp(nilfs.cps, IsSnapshot, index, lines, printed)
  {
    hide ListsUp, Upwards, Snapshots, Below, Ascending, Rank, Nilfs.Valid, Query, SnapshotQuery;
    NilfsAscending(nilfs);
    UpwardsLists(nilfs.cps, index, lines);
    ghost var cps, ss, k := nilfs.cps, Snapshots(nilfs.cps), Below(nilfs.cps, index);
    var stat := nilfs.GetCpstat();
    var rest: nat, sidx: nat := Lines(lines, stat.nsss), index;
    printed := [];
    UpwardsJoin(ss, k, 0, 0);
    if sidx >= stat.cno {
      AllBelow(nilfs, index);
    }
    if rest == 0 || sidx >= stat.cno {
      return printed, true;
    }
    if sidx > 0 {
      var r := SearchSnapshot(nilfs, sidx);
      match r {
        case Error => return printed, false;
        case Nothing => return printed, true;
        case At(cno) => sidx := cno;
      }
    } else {
      NoneBelowZero(cps);
    }
    printed, ok := ListUp(nilfs, sidx, rest, k);
  }

  /** The next batch is printed. */
  method BatchUp(nilfs: Nilfs, sidx: nat, rest: nat, printed0: seq<Cpinfo>, ghost k: nat)
    returns (printed: seq<Cpinfo>, next: nat, ok: bool)
    requires nilfs.Valid() && rest > 0 && k + |printed0| < |Snapshots(nilfs.cps)|
    requires printed0 == Upwards(Snapshots(nilfs.cps), k, |printed0|)
    requires sidx == Snapshots(nilfs.cps)[k + |printed0|].cno || (k + |printed0| == 0 && sidx == 0)
    modifies nilfs`mincno
    ensures nilfs.Valid()
    ensures ok ==> |printed0| < |printed| <= |printed0| + rest && k + |printed| <= |Snapshots(nilfs.cps)|
    ensures ok ==> printed == Upwards(Snapshots(nilfs.cps), k, |printed|)
    ensures ok ==> next == NextSnapshot(nilfs.cps, Snapshots(nilfs.cps)[k + |printed| - 1].cno)
    ensures !ok ==> printed == printed0
  {
    hide Upwards, Snapshots, Ascending, Rank, Nilfs.Valid, Query, SnapshotQuery, NextSnapshot;
    NilfsAscending(nilfs);
    ghost var ss, at := Snapshots(nilfs.cps), k + |printed0|;
    FromSnapshot(nilfs.cps, at, sidx, Min(rest, NCPINFO));
    var batch := Get(nilfs, sidx, SnapshotMode, rest);
    if batch.None? {
      return printed0, 0, false;
    }
    UpwardsJoin(ss, k, |printed0|, |batch.value|);
    LastOfPart(ss, at, batch.value);
    return printed0 + batch.value, NextSnapshot(nilfs.cps, batch.value[|batch.value| - 1].cno), true;
  }

  /** The loop of lscp_forward_ssinfo. */
  method ListUp(nilfs: Nilfs, sidx0: nat, limit: nat, ghost k: nat) returns (printed: seq<Cpinfo>, ok: bool)
    requires nilfs.Valid() && limit > 0 && k < |Snapshots(nilfs.cps)|
    requires sidx0 == Snapshots(nilfs.cps)[k].cno || (k == 0 && sidx0 == 0)
    modifies nilfs`mincno
    ensures nilfs.Valid()
    ensures ok ==> printed == Upwards(Snapshots(nilfs.cps), k, Min(limit, |Snapshots(nilfs.cps)| - k))
  {
    hide Upwards, Snapshots, Ascending, Rank, Nilfs.Valid, Query, SnapshotQuery, NextSnapshot;
    NilfsAscending(nilfs);
    ghost var cps, ss := nilfs.cps, Snapshots(nilfs.cps);
    var rest: nat, sidx: nat := limit, sidx0;
    printed := [];
    UpwardsJoin(ss, k, 0, 0);
    while rest > 0 && sidx < nilfs.nextCno
      invariant nilfs.Valid()
      invariant rest + |printed| == limit && k + |printed| <= |ss|
      invariant printed == Upwards(ss, k, |printed|)
      invariant k + |printed| < |ss| ==> sidx == ss[k + |printed|].cno || (k + |printed| == 0 && sidx == 0)
      invariant rest > 0 ==> k + |printed| < |ss|
    {
      var more;
      more, sidx, ok := BatchUp(nilfs, sidx, rest, printed, k);
      if !ok {
        return printed, false;
      }
      rest := rest - (|more| - |printed|);
      printed := more;
      SnapshotAfter(cps, k + |printed| - 1);
      if sidx == 0 {
        NoNextLeft(cps, k + |printed|);
        break;
      }
    }
    if rest > 0 && k + |printed| < |ss| {
      SnapshotNumbered(nilfs, k + |printed|);
    }
    return printed, true;
  }

  lemma {:induction false} NoNextLeft(cps: seq<Cpinfo>, j: nat)
    requires Ascending(cps) && j <= |Snapshots(cps)| && (j < |Snapshots(cps)| ==> Snapshots(cps)[j].cno == 0)
    ensures j == |Snapshots(cps)|
  {
    SnapshotsAscending(cps, |cps|);
  }

  lemma {:induction false} NoneBelowZero(cps: seq<Cpinfo>)
    ensures Below(cps, 0) == 0
  {
    RankZero(cps, |cps|);
  }

  lemma {:induction false} RankZero(cps: seq<Cpinfo>, n: nat)
    requires n <= |cps|
    ensures RankUpTo(cps, 0, n) == 0
  {
    if n > 0 {
      RankZero(cps, n - 1);
    }
  }

  lemma {:induction false} AllNumbered(nilfs: Nilfs)
    requires nilfs.Valid()
    ensures forall i :: 0 <= i < |nilfs.cps| ==> nilfs.cps[i].cno < nilfs.nextCno
  {
  }

  lemma {:induction false} SnapshotNumbered(nilfs: Nilfs, j: nat)
    requires nilfs.Valid() && j < |Snapshots(nilfs.cps)|
    ensures Snapshots(nilfs.cps)[j].cno < nilfs.nextCno
  {
    SnapshotsAscending(nilfs.cps, |nilfs.cps|);
  }

  // ----- checkpoints downwards -----

  /** lscp lists minor checkpoints only on request. */
  predicate Shown(cp: Cpinfo, showAll: bool) { showAll || cp.snapshot || !cp.minor }

  /** The shown checkpoints below position hi, newest first, at most `rest` of them. */
  function ShownDown(cps: seq<Cpinfo>, hi: nat, rest: nat, showAll: bool): (r: seq<Cpinfo>)
    requires hi <= |cps|
    ensures |r| <= rest
    decreases hi
  {
    if hi == 0 || rest == 0 then []
    else if Shown(cps[hi - 1], showAll) then [cps[hi - 1]] + ShownDown(cps, hi - 1, rest - 1, showAll)
    else ShownDown(cps, hi - 1, rest, showAll)
  }

  /** What the loop does with a checkpoint: it prints it and counts it, or it passes over it. */
  function Print(showAll: bool): (Cpinfo, seq<Cpinfo>) -> (int, seq<Cpinfo>) {
    (cp: Cpinfo, printed: seq<Cpinfo>) => if Shown(cp, showAll) then (1, printed + [cp]) else (0, printed)
  }

  /** The plain descending walk prints exactly the shown checkpoints. */
  lemma {:induction false} WalkPrints(cps: seq<Cpinfo>, hi: nat, rest: nat, showAll: bool, printed: seq<Cpinfo>)
    requires hi <= |cps| && (rest >= 1 || hi == 0)
    ensures WalkDown(cps, 0, hi, rest, Print(showAll), printed).ctx == printed + ShownDown(cps, hi, rest, showAll)
    decreases hi
  {
    if hi > 0 {
      match Visit(cps[hi - 1], rest, Print(showAll), printed)
      case Going(r, c) => WalkPrints(cps, hi - 1, r, showAll, c);
      case Ended(_, _) =>
    }
  }

  /** lscp_backward_cpinfo, whose search is the one of nilfs_enum_cpinfo_backward */
  method BackwardCheckpoints(nilfs: Nilfs, index: nat, lines: nat, showAll: bool)
    returns (printed: seq<Cpinfo>, ok: bool)
    requires nilfs.Valid()
    modifies nilfs`mincno
    ensures nilfs.Valid()
    ensures ok ==> printed == ShownDown(nilfs.cps, BackwardStart(nilfs.cps, nilfs.nextCno, index),
                                        Limit(lines, |nilfs.cps|), showAll)
    ensures ok ==> ListsDown(nilfs.cps, nilfs.nextCno, Wanted(showAll), index, lines, printed)
  {
    hide WalkDown, ListsDown;
    BackwardLists(nilfs.cps, nilfs.nextCno, index, lines, showAll);
    var queryFailed, w, stop := EnumBackward(nilfs, index, lines, Print(showAll), []);
    printed, ok := w.ctx, !queryFailed;
    if ok {
      WalkPrints(nilfs.cps, BackwardStart(nilfs.cps, nilfs.nextCno, index), Limit(lines, |nilfs.cps|), showAll, []);
    }
  }
}
