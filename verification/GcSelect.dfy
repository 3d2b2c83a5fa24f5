/** Choosing among the selected segments, and collecting their blocks. */
module GcSelect {
  import opened Wrappers
  import opened Arithmetic
  import opened SegmentReader
  import opened BlockCollect
  import opened Vectors

  const WRAP: nat := 0x1_0000_0000_0000_0000

  /** cnt64_ge: the difference, as a signed 64-bit number, is not negative. */
  predicate Cnt64Ge(a: nat, b: nat) { (a - b) % WRAP < WRAP / 2 }

  /** Of two counters that wrapped around, it finds the one that is ahead, unless they are far apart. */
  lemma {:induction false} CounterOrder(x: nat, y: nat)
    requires -(WRAP as int / 2) <= x - y < WRAP / 2
    ensures Cnt64Ge(x % WRAP, y % WRAP) <==> x >= y
  {
    var d := x % WRAP - y % WRAP;
    var k := x / WRAP - y / WRAP;
    assert x - y == k * WRAP + d;
    assert k == 0 || k == 1 || k == -1;
  }

  /** Usage information and contents of a segment. */
  datatype SegmentState = SegmentState(dirty: bool, active: bool, error: bool, nblocks: nat, segment: Segment)

  predicate Reclaimable(st: SegmentState) { st.dirty && !st.active && !st.error }

  /** The segments of the device; a number beyond them makes a request fail. */
  type Device = map<nat, SegmentState>

  ghost predicate ValidDevice(dev: Device, perSegment: nat) {
    forall s :: s in dev ==> ValidSegment(dev[s].segment) && dev[s].segment.nblocks <= perSegment
  }

  /** A segment is taken when it is reclaimable, and scrapped or older than the protected ones. */
  predicate Accepts(dev: Device, s: nat, protseq: nat) {
    s in dev && Reclaimable(dev[s]) && (dev[s].nblocks == 0 || !Cnt64Ge(dev[s].segment.seqnum, protseq))
  }

  // ----- what is taken, in terms of the usage information and the counters -----

  ghost predicate Near(x: nat, y: nat) { -(WRAP as int / 2) < x - y < WRAP / 2 }

  /** Whatever counters these were before they wrapped around, if they were near each other the first was behind. */
  ghost predicate Behind(a: nat, b: nat) {
    forall x: nat, y: nat :: Near(x, y) && a == x % WRAP && b == y % WRAP ==> x < y
  }

  ghost predicate NotBehind(a: nat, b: nat) {
    forall x: nat, y: nat :: Near(x, y) && a == x % WRAP && b == y % WRAP ==> x >= y
  }

  /** The segment may be reclaimed: dirty, not active, without error; and scrapped, or older than the protected ones. */
  ghost predicate Takable(dev: Device, s: nat, protseq: nat) {
    && s in dev && dev[s].dirty && !dev[s].active && !dev[s].error
    && (dev[s].nblocks == 0 || Behind(dev[s].segment.seqnum, protseq))
  }

  /** It may not, although the kernel knows it. */
  ghost predicate Refused(dev: Device, s: nat, protseq: nat) {
    && s in dev
    && (!dev[s].dirty || dev[s].active || dev[s].error
        || (dev[s].nblocks > 0 && NotBehind(dev[s].segment.seqnum, protseq)))
  }

  lemma {:induction false} AcceptsMeans(dev: Device, s: nat, protseq: nat)
    requires s in dev
    ensures if Accepts(dev, s, protseq) then Takable(dev, s, protseq) else Refused(dev, s, protseq)
  {
    hide Cnt64Ge;
    var c := dev[s].segment.seqnum;
    forall x: nat, y: nat | Near(x, y) && c == x % WRAP && protseq == y % WRAP
      ensures Cnt64Ge(c, protseq) <==> x >= y
    {
      CounterOrder(x, y);
    }
  }

  /** The accepted segments may be reclaimed, the rejected ones may not. */
  lemma {:induction false} AcceptedMeans(dev: Device, protseq: nat, segs: seq<nat>, n: nat)
    requires n <= |segs| && forall i :: 0 <= i < n ==> segs[i] in dev
    ensures forall s :: s in Accepted(dev, protseq, segs, n) ==> Takable(dev, s, protseq)
    ensures forall s :: s in Rejected(dev, protseq, segs, n) ==> Refused(dev, s, protseq)
  {
    hide Accepts, Takable, Refused;
    if n > 0 {
      AcceptedMeans(dev, protseq, segs, n - 1);
      AcceptsMeans(dev, segs[n - 1], protseq);
    }
  }

  // ----- what the loop over the segments computes -----

  function Accepted(dev: Device, protseq: nat, segs: seq<nat>, n: nat): (r: seq<nat>)
    requires n <= |segs|
    ensures |r| <= n
  {
    if n == 0 then []
    else Accepted(dev, protseq, segs, n - 1) + (if Accepts(dev, segs[n - 1], protseq) then [segs[n - 1]] else [])
  }

  /** The rejected segments, the last one first. */
  function Rejected(dev: Device, protseq: nat, segs: seq<nat>, n: nat): (r: seq<nat>)
    requires n <= |segs|
    ensures |r| + |Accepted(dev, protseq, segs, n)| == n
  {
    if n == 0 then []
    else (if Accepts(dev, segs[n - 1], protseq) then [] else [segs[n - 1]]) + Rejected(dev, protseq, segs, n - 1)
  }

  /** The array after n segments have been examined. */
  function Arranged(dev: Device, protseq: nat, segs: seq<nat>, n: nat): (r: seq<nat>)
    requires n <= |segs|
    ensures |r| == |segs|
  {
    Accepted(dev, protseq, segs, n) + segs[n..] + Rejected(dev, protseq, segs, n)
  }

  /** No segment is lost or invented. */
  lemma {:induction false} ArrangedPermutes(dev: Device, protseq: nat, segs: seq<nat>, n: nat)
    requires n <= |segs|
    ensures multiset(Arranged(dev, protseq, segs, n)) == multiset(segs)
  {
    hide Accepts, Arranged, Accepted, Rejected;
    if n == 0 {
      ArrangedStart(dev, protseq, segs);
    } else if Accepts(dev, segs[n - 1], protseq) {
      ArrangedPermutes(dev, protseq, segs, n - 1);
      AcceptStep(dev, protseq, segs, n - 1);
    } else {
      ArrangedPermutes(dev, protseq, segs, n - 1);
      ArrangedReject(dev, protseq, segs, n);
      Exchange(Accepted(dev, protseq, segs, n - 1), segs[n - 1], segs[n..], Rejected(dev, protseq, segs, n - 1));
    }
  }

  lemma {:induction false} ArrangedStart(dev: Device, protseq: nat, segs: seq<nat>)
    ensures Accepted(dev, protseq, segs, 0) == [] && Rejected(dev, protseq, segs, 0) == [] &&
            Arranged(dev, protseq, segs, 0) == segs
  {
    assert segs[0..] == segs;
  }

  lemma {:induction false} ArrangedReject(dev: Device, protseq: nat, segs: seq<nat>, n: nat)
    requires 0 < n <= |segs| && !Accepts(dev, segs[n - 1], protseq)
    ensures var a, r, s := Accepted(dev, protseq, segs, n - 1), Rejected(dev, protseq, segs, n - 1), segs[n - 1];
            && Arranged(dev, protseq, segs, n - 1) == a + ([s] + segs[n..]) + r
            && Arranged(dev, protseq, segs, n) == a + segs[n..] + ([s] + r)
  {
    hide Accepts;
    assert segs[n - 1..] == [segs[n - 1]] + segs[n..];
    var a, r := Accepted(dev, protseq, segs, n - 1), Rejected(dev, protseq, segs, n - 1);
    assert Accepted(dev, protseq, segs, n) == a;
    assert Rejected(dev, protseq, segs, n) == [segs[n - 1]] + r;
  }

  lemma {:induction false} Exchange(a: seq<nat>, s: nat, rest: seq<nat>, r: seq<nat>)
    ensures multiset(a + ([s] + rest) + r) == multiset(a + rest + ([s] + r))
  {
  }

  function BlocksOf(dev: Device, s: nat, perSegment: nat): (blocks: seq<Block>)
    requires ValidDevice(dev, perSegment)
  {
    if s !in dev || dev[s].nblocks == 0 then []
    else match SegmentBlocks(dev[s].segment, dev[s].nblocks)
      case None => []
      case Some(blocks) => blocks
  }

  /** The blocks of the accepted segments among the first n. */
  function Collection(dev: Device, protseq: nat, perSegment: nat, segs: seq<nat>, n: nat): seq<Block>
    requires ValidDevice(dev, perSegment) && n <= |segs|
  {
    if n == 0 then []
    else Collection(dev, protseq, perSegment, segs, n - 1) +
         (if Accepts(dev, segs[n - 1], protseq) then BlocksOf(dev, segs[n - 1], perSegment) else [])
  }

  /** There are never more descriptors than the accepted segments have blocks. */
  lemma {:induction false} CollectionFits(dev: Device, protseq: nat, perSegment: nat, segs: seq<nat>, n: nat)
    requires ValidDevice(dev, perSegment) && n <= |segs|
    ensures var blocks := Collection(dev, protseq, perSegment, segs, n);
            |Vdescs(blocks)| + |Bdescs(blocks)| == |blocks| <= perSegment * |Accepted(dev, protseq, segs, n)|
  {
    hide SegmentBlocks, ValidSegment;
    if n > 0 {
      CollectionFits(dev, protseq, perSegment, segs, n - 1);
      var s := segs[n - 1];
      Distribute(perSegment, |Accepted(dev, protseq, segs, n - 1)|, 1);
      if Accepts(dev, s, protseq) && dev[s].nblocks != 0 && SegmentBlocks(dev[s].segment, dev[s].nblocks).Some? {
        SegmentBlocksDistinct(dev[s].segment, dev[s].nblocks);
      }
    }
  }

  // ----- in place -----

  /** nilfs_deselect_segment: segment `nr` goes to the end of the first `nsegs` ones. */
  method DeselectSegment(segnums: array<nat>, nsegs: nat, nr: nat) returns (n: int)
    requires nsegs <= segnums.Length
    modifies segnums
    ensures n == if nr < nsegs then nsegs - 1 else -1
    ensures segnums[..] ==
            if nr < nsegs
            then old(segnums[..nr]) + old(segnums[nr + 1..nsegs]) + [old(segnums[nr])] + old(segnums[nsegs..])
            else old(segnums[..])
  {
    if nr >= nsegs || nsegs == 0 {
      return -1;
    }
    if nr < nsegs - 1 {
      var tn := segnums[nr];
      forall k | nr <= k < nsegs - 1 {
        segnums[k] := segnums[k + 1];
      }
      segnums[nsegs - 1] := tn;
    }
    return nsegs - 1;
  }

  lemma {:induction false} RejectStep(now: seq<nat>, next: seq<nat>, dev: Device, protseq: nat, segs: seq<nat>, e: nat,
                                      tail: seq<nat>)
    requires e < |segs| && !Accepts(dev, segs[e], protseq)
    requires now == Arranged(dev, protseq, segs, e) + tail
    requires var i, n := |Accepted(dev, protseq, segs, e)|, |segs| - |Rejected(dev, protseq, segs, e)|;
             i < n && next == now[..i] + now[i + 1..n] + [now[i]] + now[n..]
    ensures next == Arranged(dev, protseq, segs, e + 1) + tail
    ensures |Accepted(dev, protseq, segs, e + 1)| == |Accepted(dev, protseq, segs, e)|
  {
    hide Accepts, Arranged;
    ArrangedReject(dev, protseq, segs, e + 1);
    Rotated(Accepted(dev, protseq, segs, e), segs[e], segs[e + 1..], Rejected(dev, protseq, segs, e), tail, now);
  }

  lemma {:induction false} Rotated(a: seq<nat>, s: nat, rest: seq<nat>, r: seq<nat>, tail: seq<nat>, now: seq<nat>)
    requires now == a + ([s] + rest) + r + tail
    ensures var i, n := |a|, |a| + 1 + |rest|;
            now[..i] + now[i + 1..n] + [now[i]] + now[n..] == a + rest + ([s] + r) + tail
  {
    var i, n := |a|, |a| + 1 + |rest|;
    assert now[..i] == a;
    assert now[i + 1..n] == rest;
    assert now[n..] == r + tail;
  }

  lemma {:induction false} AcceptStep(dev: Device, protseq: nat, segs: seq<nat>, e: nat)
    requires e < |segs| && Accepts(dev, segs[e], protseq)
    ensures Arranged(dev, protseq, segs, e + 1) == Arranged(dev, protseq, segs, e)
    ensures |Accepted(dev, protseq, segs, e + 1)| == |Accepted(dev, protseq, segs, e)| + 1
    ensures |Rejected(dev, protseq, segs, e + 1)| == |Rejected(dev, protseq, segs, e)|
  {
    hide Accepts;
    assert segs[e..] == [segs[e]] + segs[e + 1..];
  }

  method RejectAt(dev: Device, segnums: array<nat>, nsegs: nat, i: nat, protseq: nat, ghost segs: seq<nat>,
                  ghost e: nat, ghost tail: seq<nat>)
    returns (n: nat)
    requires e < |segs| && !Accepts(dev, segs[e], protseq)
    requires segnums[..] == Arranged(dev, protseq, segs, e) + tail && nsegs <= segnums.Length
    requires i == |Accepted(dev, protseq, segs, e)| && nsegs == |segs| - |Rejected(dev, protseq, segs, e)|
    modifies segnums
    ensures n == nsegs - 1
    ensures segnums[..] == Arranged(dev, protseq, segs, e + 1) + tail
    ensures |Accepted(dev, protseq, segs, e + 1)| == |Accepted(dev, protseq, segs, e)|
  {
    hide Accepts, Accepted, Rejected, Arranged;
    ghost var now := segnums[..];
    assert i < nsegs;
    var m := DeselectSegment(segnums, nsegs, i);
    assert now[..i] == old(segnums[..i]) && now[i + 1..nsegs] == old(segnums[i + 1..nsegs]) &&
           now[nsegs..] == old(segnums[nsegs..]);
    RejectStep(now, segnums[..], dev, protseq, segs, e, tail);
    return m;
  }

  lemma {:induction false} ArrangedAt(now: seq<nat>, dev: Device, protseq: nat, segs: seq<nat>, e: nat, tail: seq<nat>)
    requires e < |segs| && now == Arranged(dev, protseq, segs, e) + tail
    ensures |Accepted(dev, protseq, segs, e)| < |now| && now[|Accepted(dev, protseq, segs, e)|] == segs[e]
    ensures |Rejected(dev, protseq, segs, e)| == e - |Accepted(dev, protseq, segs, e)|
  {
    hide Accepted, Rejected, Accepts;
    assert Arranged(dev, protseq, segs, e)[|Accepted(dev, protseq, segs, e)|] == segs[e..][0];
  }

  /** What collecting the blocks of the first e segments does to the two vectors. */
  ghost predicate Gathered(vs: seq<Vdesc>, bs: seq<Bdesc>, vs0: seq<Vdesc>, bs0: seq<Bdesc>, blocks: seq<Block>) {
    vs == vs0 + Vdescs(blocks) && bs == bs0 + Bdescs(blocks)
  }

  datatype Examined = Failed | Rejects | Takes

  /** Examines one segment; when it is taken, its blocks have been collected. */
  method Examine(dev: Device, s: nat, protseq: nat, ghost perSegment: nat, vdescv: Vector<Vdesc>, bdescv: Vector<Bdesc>)
    returns (r: Examined)
    requires ValidDevice(dev, perSegment)
    requires vdescv.Valid() && bdescv.Valid()
    modifies vdescv, vdescv.data, bdescv, bdescv.data
    ensures vdescv.Valid() && (fresh(vdescv.data) || vdescv.data == old(vdescv.data))
    ensures bdescv.Valid() && (fresh(bdescv.data) || bdescv.data == old(bdescv.data))
    ensures !r.Failed? ==> s in dev
    ensures r.Rejects? ==> !Accepts(dev, s, protseq)
    ensures r.Takes? ==> Accepts(dev, s, protseq)
    ensures !r.Failed? ==>
            Gathered(vdescv.Contents(), bdescv.Contents(), old(vdescv.Contents()), old(bdescv.Contents()),
                                    if r.Takes? then BlocksOf(dev, s, perSegment) else [])
  {
    hide ValidSegment, SegmentBlocks, VdescsOf, BdescsOf, Cnt64Ge;
    NoBlocks();
    if * {
      return Failed;
    }
    if s !in dev {
      return Failed;
    }
    var st := dev[s];
    if !Reclaimable(st) {
      return Rejects;
    }
    if st.nblocks == 0 {
      return Takes;
    }
    if * {
      return Failed;
    }
    if Cnt64Ge(st.segment.seqnum, protseq) {
      return Rejects;
    }
    var ok := AccBlocksSegment(st.segment, st.nblocks, vdescv, bdescv);
    r := if ok then Takes else Failed;
  }

  lemma {:induction false} NoBlocks()
    ensures Vdescs([]) == [] && Bdescs([]) == []
  {
  }

  lemma {:induction false} GatherStep(vs: seq<Vdesc>, bs: seq<Bdesc>, vs0: seq<Vdesc>, bs0: seq<Bdesc>,
                                      blocks: seq<Block>, more: seq<Block>)
    requires Gathered(vs, bs, vs0, bs0, blocks)
    ensures Gathered(vs + Vdescs(more), bs + Bdescs(more), vs0, bs0, blocks + more)
  {
    DescsConcat(blocks, more);
  }

  /**
   nilfs_acc_blocks: the array becomes the accepted segments in order, followed by the rejected ones
   in reverse order of their rejection; each segment is examined once.
   */
  method AccBlocks(dev: Device, segnums: array<nat>, nsegs: nat, protseq: nat, ghost perSegment: nat,
                   vdescv: Vector<Vdesc>, bdescv: Vector<Bdesc>)
    returns (r: int, ghost examined: nat)
    requires ValidDevice(dev, perSegment) && nsegs <= segnums.Length
    requires vdescv.Valid() && bdescv.Valid()
    requires (segnums as object) != vdescv.data && (segnums as object) != bdescv.data
    modifies segnums, vdescv, vdescv.data, bdescv, bdescv.data
    ensures vdescv.Valid() && (fresh(vdescv.data) || vdescv.data == old(vdescv.data))
    ensures bdescv.Valid() && (fresh(bdescv.data) || bdescv.data == old(bdescv.data))
    ensures examined <= nsegs
    ensures segnums[..] == Arranged(dev, protseq, old(segnums[..nsegs]), examined) + old(segnums[nsegs..])
    ensures r == -1 || (examined == nsegs && r == |Accepted(dev, protseq, old(segnums[..nsegs]), nsegs)|)
    ensures r >= 0 ==> Gathered(vdescv.Contents(), bdescv.Contents(), old(vdescv.Contents()), old(bdescv.Contents()),
                                Collection(dev, protseq, perSegment, old(segnums[..nsegs]), nsegs))
    ensures r >= 0 ==> r <= nsegs && forall j :: 0 <= j < r ==> Takable(dev, segnums[j], protseq)
    ensures r >= 0 ==> forall j :: r <= j < nsegs ==> Refused(dev, segnums[j], protseq)
  {
    hide Takable, Refused, Accepts, ValidDevice, BlocksOf, Collection, Gathered, Accepted, Rejected, Arranged;
    ghost var segs, tail, vs0, bs0 := segnums[..nsegs], segnums[nsegs..], vdescv.Contents(), bdescv.Contents();
    var i, n := 0, nsegs;
    examined := 0;
    NothingExamined(dev, protseq, perSegment, segs, vs0, bs0);
    assert segnums[..] == segs + tail;
    while i < n
      invariant vdescv.Valid() && (fresh(vdescv.data) || vdescv.data == old(vdescv.data))
      invariant bdescv.Valid() && (fresh(bdescv.data) || bdescv.data == old(bdescv.data))
      invariant (segnums as object) != vdescv.data && (segnums as object) != bdescv.data
      invariant examined <= nsegs == |segs| && i <= n && n - i == nsegs - examined
      invariant i == |Accepted(dev, protseq, segs, examined)|
      invariant segnums[..] == Arranged(dev, protseq, segs, examined) + tail
      invariant forall e :: 0 <= e < examined ==> segs[e] in dev
      invariant Gathered(vdescv.Contents(), bdescv.Contents(), vs0, bs0,
                         Collection(dev, protseq, perSegment, segs, examined))
    {
      ghost var vs, bs := vdescv.Contents(), bdescv.Contents();
      ArrangedAt(segnums[..], dev, protseq, segs, examined, tail);
      var verdict := Examine(dev, segnums[i], protseq, perSegment, vdescv, bdescv);
      if verdict.Failed? {
        return -1, examined;
      }
      CollectStep(dev, protseq, perSegment, segs, examined, vs, bs, vs0, bs0, verdict, vdescv.Contents(),
                  bdescv.Contents());
      if verdict.Rejects? {
        n := RejectAt(dev, segnums, n, i, protseq, segs, examined, tail);
      } else {
        AcceptStep(dev, protseq, segs, examined);
        i := i + 1;
      }
      examined := examined + 1;
    }
    AcceptedMeans(dev, protseq, segs, nsegs);
    InParts(segnums[..], dev, protseq, segs, tail);
    return n, examined;
  }

  lemma {:induction false} InParts(now: seq<nat>, dev: Device, protseq: nat, segs: seq<nat>, tail: seq<nat>)
    requires now == Arranged(dev, protseq, segs, |segs|) + tail
    ensures var a, r := Accepted(dev, protseq, segs, |segs|), Rejected(dev, protseq, segs, |segs|);
            && (forall j :: 0 <= j < |a| ==> now[j] in a)
            && (forall j :: |a| <= j < |segs| ==> now[j] in r)
  {
    hide Accepted, Rejected;
    assert segs[|segs|..] == [];
  }

  lemma {:induction false} NothingExamined(dev: Device, protseq: nat, perSegment: nat, segs: seq<nat>, vs0: seq<Vdesc>,
                                           bs0: seq<Bdesc>)
    requires ValidDevice(dev, perSegment)
    ensures Accepted(dev, protseq, segs, 0) == [] && Rejected(dev, protseq, segs, 0) == [] &&
            Arranged(dev, protseq, segs, 0) == segs
    ensures Gathered(vs0, bs0, vs0, bs0, Collection(dev, protseq, perSegment, segs, 0))
  {
    NoBlocks();
    ArrangedStart(dev, protseq, segs);
  }

  lemma {:induction false} CollectStep(dev: Device, protseq: nat, perSegment: nat, segs: seq<nat>, e: nat,
                                       vs: seq<Vdesc>, bs: seq<Bdesc>, vs0: seq<Vdesc>, bs0: seq<Bdesc>,
                                       verdict: Examined, vs1: seq<Vdesc>, bs1: seq<Bdesc>)
    requires ValidDevice(dev, perSegment) && e < |segs|
    requires Gathered(vs, bs, vs0, bs0, Collection(dev, protseq, perSegment, segs, e))
    requires verdict.Takes? <==> Accepts(dev, segs[e], protseq)
    requires Gathered(vs1, bs1, vs, bs, if verdict.Takes? then BlocksOf(dev, segs[e], perSegment) else [])
    ensures Gathered(vs1, bs1, vs0, bs0, Collection(dev, protseq, perSegment, segs, e + 1))
  {
    hide ValidDevice, Accepts, BlocksOf, Vdescs, Bdescs;
    GatherStep(vs, bs, vs0, bs0, Collection(dev, protseq, perSegment, segs, e),
               if verdict.Takes? then BlocksOf(dev, segs[e], perSegment) else []);
  }
}
