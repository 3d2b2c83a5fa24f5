/** Tossing: dropping the dead descriptors in place, and noting what may be deleted. */
module GcToss {
  import opened Checkpoints
  import opened BlockCollect
  import opened Vectors
  import opened GcLiveness
  import opened GcPeriods

  // ----- the descriptors that live and those that die, in order -----

  function Survivors(vs: seq<Vdesc>, protect: nat, ss: seq<nat>, n: nat): (r: seq<Vdesc>)
    requires n <= |vs|
    ensures |r| <= n
  {
    if n == 0 then []
    else Survivors(vs, protect, ss, n - 1) + (if Live(vs[n - 1], protect, ss) then [vs[n - 1]] else [])
  }

  /** The virtual block numbers of the dead. */
  function Freed(vs: seq<Vdesc>, protect: nat, ss: seq<nat>, n: nat): seq<nat>
    requires n <= |vs|
  {
    if n == 0 then []
    else Freed(vs, protect, ss, n - 1) + (if Live(vs[n - 1], protect, ss) then [] else [vs[n - 1].vblocknr])
  }

  /** The periods of the dead, other than those of the metadata files. */
  function Deletable(vs: seq<Vdesc>, protect: nat, ss: seq<nat>, n: nat): seq<Period>
    requires n <= |vs|
  {
    if n == 0 then []
    else Deletable(vs, protect, ss, n - 1) +
         (if Live(vs[n - 1], protect, ss) || vs[n - 1].cno == 0 then [] else [vs[n - 1].period])
  }

  /** Live and dead add up. */
  lemma {:induction false} Conservation(vs: seq<Vdesc>, protect: nat, ss: seq<nat>, n: nat)
    requires n <= |vs|
    ensures |Survivors(vs, protect, ss, n)| + |Freed(vs, protect, ss, n)| == n
    ensures |Deletable(vs, protect, ss, n)| <= |Freed(vs, protect, ss, n)|
  {
    if n > 0 {
      Conservation(vs, protect, ss, n - 1);
    }
  }

  /** Every deletable period is that of a dead descriptor. */
  lemma {:induction false} DeletableFrom(vs: seq<Vdesc>, protect: nat, ss: seq<nat>, n: nat, p: Period) returns (k: nat)
    requires n <= |vs| && p in Deletable(vs, protect, ss, n)
    ensures k < n && vs[k].period == p && vs[k].cno != 0 && !Live(vs[k], protect, ss)
  {
    if p in Deletable(vs, protect, ss, n - 1) {
      k := DeletableFrom(vs, protect, ss, n - 1, p);
    } else {
      k := n - 1;
    }
  }

  // ----- in place -----

  /** The vector after the first k descriptors have been judged: survivors, then the rest. */
  ghost predicate Tossed(now: seq<Vdesc>, vs: seq<Vdesc>, protect: nat, ss: seq<nat>, k: nat) {
    k <= |vs| && now == Survivors(vs, protect, ss, k) + vs[k..]
  }

  /** What has been noted for the first k descriptors. */
  ghost predicate Noted(freed: seq<nat>, periods: seq<Period>, freed0: seq<nat>, periods0: seq<Period>,
                        vs: seq<Vdesc>, protect: nat, ss: seq<nat>, k: nat) {
    && k <= |vs|
    && freed == freed0 + Freed(vs, protect, ss, k)
    && periods == periods0 + Deletable(vs, protect, ss, k)
  }

  /** Noting one dead descriptor; memory may run out. */
  method NoteDead(v: Vdesc, periodv: Vector<Period>, vblocknrv: Vector<nat>) returns (ok: bool)
    requires periodv.Valid() && vblocknrv.Valid() && (periodv.data as object) != vblocknrv.data
    modifies periodv, periodv.data, vblocknrv, vblocknrv.data
    ensures periodv.Valid() && (fresh(periodv.data) || periodv.data == old(periodv.data))
    ensures vblocknrv.Valid() && (fresh(vblocknrv.data) || vblocknrv.data == old(vblocknrv.data))
    ensures (periodv.data as object) != vblocknrv.data
    ensures ok ==> vblocknrv.Contents() == old(vblocknrv.Contents()) + [v.vblocknr]
    ensures ok ==> periodv.Contents() == old(periodv.Contents()) + (if v.cno == 0 then [] else [v.period])
  {
    ok := vblocknrv.Append(v.vblocknr);
    if ok && v.cno != 0 {
      ok := periodv.Append(v.period);
    }
  }

  lemma {:induction false} NoteStep(freed: seq<nat>, periods: seq<Period>, freed0: seq<nat>, periods0: seq<Period>,
                                    vs: seq<Vdesc>, protect: nat, ss: seq<nat>, k: nat)
    requires Noted(freed, periods, freed0, periods0, vs, protect, ss, k) && k < |vs| && !Live(vs[k], protect, ss)
    ensures Noted(freed + [vs[k].vblocknr], periods + (if vs[k].cno == 0 then [] else [vs[k].period]), freed0, periods0,
                  vs, protect, ss, k + 1)
    ensures Survivors(vs, protect, ss, k + 1) == Survivors(vs, protect, ss, k)
  {
    hide Live;
    assert forall a: seq<nat> :: a + [] == a;
  }

  /** A live descriptor stays where it is. */
  lemma {:induction false} LiveStep(now: seq<Vdesc>, freed: seq<nat>, periods: seq<Period>, freed0: seq<nat>,
                                    periods0: seq<Period>,
                                    vs: seq<Vdesc>, protect: nat, ss: seq<nat>, k: nat)
    requires k < |vs| && Live(vs[k], protect, ss)
    requires Tossed(now, vs, protect, ss, k) && Noted(freed, periods, freed0, periods0, vs, protect, ss, k)
    ensures Tossed(now, vs, protect, ss, k + 1) && Noted(freed, periods, freed0, periods0, vs, protect, ss, k + 1)
    ensures |Survivors(vs, protect, ss, k + 1)| == |Survivors(vs, protect, ss, k)| + 1
  {
    hide Live;
    SurvivorsStep(vs, protect, ss, k);
    assert vs[k..] == [vs[k]] + vs[k + 1..];
  }

  lemma {:induction false} SurvivorsStep(vs: seq<Vdesc>, protect: nat, ss: seq<nat>, k: nat)
    requires k < |vs| && Live(vs[k], protect, ss)
    ensures Survivors(vs, protect, ss, k + 1) == Survivors(vs, protect, ss, k) + [vs[k]]
    ensures Freed(vs, protect, ss, k + 1) == Freed(vs, protect, ss, k)
    ensures Deletable(vs, protect, ss, k + 1) == Deletable(vs, protect, ss, k)
  {
    hide Live;
  }

  lemma {:induction false} RestOf(now: seq<Vdesc>, vs: seq<Vdesc>, protect: nat, ss: seq<nat>, k: nat)
    requires Tossed(now, vs, protect, ss, k)
    ensures k <= |vs| && |now| == |Survivors(vs, protect, ss, k)| + |vs| - k
    ensures forall j: nat :: |Survivors(vs, protect, ss, k)| <= j < |now| ==>
            now[j] == vs[k + j - |Survivors(vs, protect, ss, k)|]
  {
    hide Survivors;
  }

  /** Without the run of dead descriptors from k0 to k, the vector is what it should be after k. */
  lemma {:induction false} WithoutRun(now: seq<Vdesc>, vs: seq<Vdesc>, protect: nat, ss: seq<nat>, k0: nat, k: nat)
    requires Tossed(now, vs, protect, ss, k0) && k0 <= k <= |vs|
    requires Survivors(vs, protect, ss, k) == Survivors(vs, protect, ss, k0)
    ensures var i := |Survivors(vs, protect, ss, k0)|;
            && i + k - k0 <= |now| && Tossed(now[..i] + now[i + k - k0..], vs, protect, ss, k)
            && (k == k0 ==> now[..i] + now[i..] == now)
  {
    hide Survivors;
    var i := |Survivors(vs, protect, ss, k0)|;
    assert now[i + k - k0..] == vs[k..];
  }

  /**
   The inner loop of nilfs_toss_vdescs: notes the dead descriptors from position i on, up to the
   first live one or the end, and deletes them.
   */
  method TossRun(vdescv: Vector<Vdesc>, periodv: Vector<Period>, vblocknrv: Vector<nat>, protect: nat, ss: seq<nat>,
                 lastHit: nat,
                 i: nat, ghost vs: seq<Vdesc>, ghost k0: nat, ghost freed0: seq<nat>, ghost periods0: seq<Period>)
    returns (ok: bool, hit: nat, ghost k: nat)
    requires Increasing(ss) && HitOk(lastHit, ss)
    requires vdescv.Valid() && periodv.Valid() && vblocknrv.Valid() && (periodv.data as object) != vblocknrv.data
    requires Tossed(vdescv.Contents(), vs, protect, ss, k0) && i == |Survivors(vs, protect, ss, k0)|
    requires Noted(vblocknrv.Contents(), periodv.Contents(), freed0, periods0, vs, protect, ss, k0)
    modifies vdescv, vdescv.data, periodv, periodv.data, vblocknrv, vblocknrv.data
    ensures HitOk(hit, ss) && vdescv.Valid() && vdescv.data == old(vdescv.data)
    ensures periodv.Valid() && (fresh(periodv.data) || periodv.data == old(periodv.data))
    ensures vblocknrv.Valid() && (fresh(vblocknrv.data) || vblocknrv.data == old(vblocknrv.data))
    ensures (periodv.data as object) != vblocknrv.data
    ensures ok ==> Tossed(vdescv.Contents(), vs, protect, ss, k) && i == |Survivors(vs, protect, ss, k)|
    ensures ok ==> Noted(vblocknrv.Contents(), periodv.Contents(), freed0, periods0, vs, protect, ss, k)
    ensures ok ==> k0 <= k <= |vs| && (k < |vs| ==> Live(vs[k], protect, ss))
  {
    hide Live, Noted, Survivors, Increasing, HitOk, Freed, Deletable, Tossed;
    RestOf(vdescv.Contents(), vs, protect, ss, k0);
    var j := i;
    hit, k := lastHit, k0;
    ghost var now := vdescv.Contents();
    while j < vdescv.nelems
      invariant vdescv.Valid() && vdescv.data == old(vdescv.data) && vdescv.Contents() == now
      invariant periodv.Valid() && (fresh(periodv.data) || periodv.data == old(periodv.data))
      invariant vblocknrv.Valid() && (fresh(vblocknrv.data) || vblocknrv.data == old(vblocknrv.data))
      invariant (periodv.data as object) != vblocknrv.data
      invariant HitOk(hit, ss)
      invariant i <= j <= |now| && k == k0 + (j - i) <= |vs|
      invariant Survivors(vs, protect, ss, k) == Survivors(vs, protect, ss, k0)
      invariant Noted(vblocknrv.Contents(), periodv.Contents(), freed0, periods0, vs, protect, ss, k)
    {
      var v := vdescv.Get(j);
      var live;
      live, hit := VdescIsLive(v, protect, ss, hit);
      if live {
        break;
      }
      NoteStep(vblocknrv.Contents(), periodv.Contents(), freed0, periods0, vs, protect, ss, k);
      ok := NoteDead(v, periodv, vblocknrv);
      if !ok {
        return;
      }
      j, k := j + 1, k + 1;
    }
    WithoutRun(now, vs, protect, ss, k0, k);
    if j > i {
      var deleted := vdescv.DeleteElements(i, j - i);
    }
    ok := true;
  }

  /** The loop of nilfs_toss_vdescs. */
  method TossVdescs(vdescv: Vector<Vdesc>, periodv: Vector<Period>, vblocknrv: Vector<nat>, protcno: nat, ss: seq<nat>)
    returns (ok: bool)
    requires Increasing(ss)
    requires vdescv.Valid() && periodv.Valid() && vblocknrv.Valid() && (periodv.data as object) != vblocknrv.data
    modifies vdescv, vdescv.data, periodv, periodv.data, vblocknrv, vblocknrv.data
    ensures vdescv.Valid() && vdescv.data == old(vdescv.data)
    ensures periodv.Valid() && (fresh(periodv.data) || periodv.data == old(periodv.data))
    ensures vblocknrv.Valid() && (fresh(vblocknrv.data) || vblocknrv.data == old(vblocknrv.data))
    ensures (periodv.data as object) != vblocknrv.data
    ensures ok ==>
              var vs := old(vdescv.Contents());
              && vdescv.Contents() == Survivors(vs, protcno, ss, |vs|)
              && vblocknrv.Contents() == old(vblocknrv.Contents()) + Freed(vs, protcno, ss, |vs|)
              && periodv.Contents() == old(periodv.Contents()) + Deletable(vs, protcno, ss, |vs|)
  {
    hide Live, Increasing, HitOk, Survivors, Freed, Deletable, Tossed, Noted;
    ghost var vs, freed0, periods0 := vdescv.Contents(), vblocknrv.Contents(), periodv.Contents();
    ghost var k := 0;
    var lastHit, i := 0, 0;
    NothingJudged(vs, freed0, periods0, protcno, ss);
    assert HitOk(0, ss) by { ZeroHit(ss); }
    while i < vdescv.nelems
      invariant HitOk(lastHit, ss)
      invariant vdescv.Valid() && vdescv.data == old(vdescv.data)
      invariant periodv.Valid() && (fresh(periodv.data) || periodv.data == old(periodv.data))
      invariant vblocknrv.Valid() && (fresh(vblocknrv.data) || vblocknrv.data == old(vblocknrv.data))
      invariant (periodv.data as object) != vblocknrv.data
      invariant Tossed(vdescv.Contents(), vs, protcno, ss, k)
      invariant Noted(vblocknrv.Contents(), periodv.Contents(), freed0, periods0, vs, protcno, ss, k)
      invariant k <= |vs| && if k < |vs| then i == |Survivors(vs, protcno, ss, k)|
                else i >= |Survivors(vs, protcno, ss, k)|
      decreases |vs| - k, |vs| + 1 - i
    {
      NotPastEnd(vdescv.Contents(), vs, protcno, ss, k, i);
      ok, lastHit, k := TossRun(vdescv, periodv, vblocknrv, protcno, ss, lastHit, i, vs, k, freed0, periods0);
      if !ok {
        return;
      }
      if k < |vs| {
        LiveStep(vdescv.Contents(), vblocknrv.Contents(), periodv.Contents(), freed0, periods0, vs, protcno, ss, k);
        k := k + 1;
      }
      i := i + 1;
    }
    AllJudged(vdescv.Contents(), vblocknrv.Contents(), periodv.Contents(), freed0, periods0, vs, protcno, ss, k, i);
    ok := true;
  }

  lemma {:induction false} ZeroHit(ss: seq<nat>)
    ensures HitOk(0, ss)
  {
  }

  lemma {:induction false} NothingJudged(vs: seq<Vdesc>, freed0: seq<nat>, periods0: seq<Period>, protect: nat,
                                         ss: seq<nat>)
    ensures Tossed(vs, vs, protect, ss, 0) && Noted(freed0, periods0, freed0, periods0, vs, protect, ss, 0)
    ensures Survivors(vs, protect, ss, 0) == []
  {
  }

  lemma {:induction false} NotPastEnd(now: seq<Vdesc>, vs: seq<Vdesc>, protect: nat, ss: seq<nat>, k: nat, i: nat)
    requires Tossed(now, vs, protect, ss, k) && (k == |vs| ==> i >= |Survivors(vs, protect, ss, k)|) && i < |now|
    ensures k < |vs|
  {
  }

  /** At the end of the loop every descriptor has been judged. */
  lemma {:induction false} AllJudged(now: seq<Vdesc>, freed: seq<nat>, periods: seq<Period>, freed0: seq<nat>,
                                     periods0: seq<Period>,
                                     vs: seq<Vdesc>, protect: nat, ss: seq<nat>, k: nat, i: nat)
    requires Tossed(now, vs, protect, ss, k) && Noted(freed, periods, freed0, periods0, vs, protect, ss, k)
    requires (k < |vs| ==> i == |Survivors(vs, protect, ss, k)|) && i >= |now|
    ensures now == Survivors(vs, protect, ss, |vs|)
    ensures freed == freed0 + Freed(vs, protect, ss, |vs|) && periods == periods0 + Deletable(vs, protect, ss, |vs|)
  {
    assert k == |vs|;
  }

  // ----- blocks of the DAT -----

  /** nilfs_bdesc_is_live */
  predicate BdescIsLive(b: Bdesc) { b.oblocknr == b.blocknr }

  function LiveBdescs(bs: seq<Bdesc>, n: nat): (r: seq<Bdesc>)
    requires n <= |bs|
    ensures |r| <= n
  {
    if n == 0 then [] else LiveBdescs(bs, n - 1) + (if BdescIsLive(bs[n - 1]) then [bs[n - 1]] else [])
  }

  /** What is kept: exactly the descriptors of blocks that are where the kernel says they are. */
  lemma {:induction false} LiveBdescsExactly(bs: seq<Bdesc>, n: nat)
    requires n <= |bs|
    ensures forall b :: b in LiveBdescs(bs, n) <==> b in bs[..n] && b.oblocknr == b.blocknr
  {
    if n > 0 {
      LiveBdescsExactly(bs, n - 1);
      assert bs[..n] == bs[..n - 1] + [bs[n - 1]];
    }
  }

  /** The vector after the first k descriptors have been judged. */
  ghost predicate BTossed(now: seq<Bdesc>, bs: seq<Bdesc>, k: nat) {
    k <= |bs| && now == LiveBdescs(bs, k) + bs[k..]
  }

  lemma {:induction false} BdescStep(now: seq<Bdesc>, bs: seq<Bdesc>, k: nat)
    requires BTossed(now, bs, k) && k < |bs| && BdescIsLive(bs[k])
    ensures BTossed(now, bs, k + 1) && |LiveBdescs(bs, k + 1)| == |LiveBdescs(bs, k)| + 1
  {
    assert bs[k..] == [bs[k]] + bs[k + 1..];
  }

  lemma {:induction false} BdescEnds(bs: seq<Bdesc>)
    ensures BTossed(bs, bs, 0) && LiveBdescs(bs, 0) == []
  {
  }

  /** The inner loop of nilfs_toss_bdescs and its deletion. */
  method TossBdescRun(bdescv: Vector<Bdesc>, i: nat, ghost bs: seq<Bdesc>, ghost k0: nat) returns (ghost k: nat)
    requires bdescv.Valid() && BTossed(bdescv.Contents(), bs, k0) && i == |LiveBdescs(bs, k0)|
    modifies bdescv, bdescv.data
    ensures bdescv.Valid() && bdescv.data == old(bdescv.data)
    ensures k0 <= k <= |bs| && (k < |bs| ==> BdescIsLive(bs[k]))
    ensures BTossed(bdescv.Contents(), bs, k) && i == |LiveBdescs(bs, k)|
  {
    var j := i;
    k := k0;
    ghost var now := bdescv.Contents();
    while j < bdescv.nelems
      invariant bdescv.Valid() && bdescv.data == old(bdescv.data) && bdescv.Contents() == now
      invariant i <= j <= |now| && k == k0 + (j - i) <= |bs|
      invariant LiveBdescs(bs, k) == LiveBdescs(bs, k0)
    {
      var b := bdescv.Get(j);
      assert b == bs[k];
      if BdescIsLive(b) {
        break;
      }
      j, k := j + 1, k + 1;
    }
    assert now[..i] + now[j..] == LiveBdescs(bs, k) + bs[k..];
    if j > i {
      var deleted := bdescv.DeleteElements(i, j - i);
    }
  }

  /** nilfs_toss_bdescs */
  method TossBdescs(bdescv: Vector<Bdesc>)
    requires bdescv.Valid()
    modifies bdescv, bdescv.data
    ensures bdescv.Valid() && bdescv.data == old(bdescv.data)
    ensures bdescv.Contents() == LiveBdescs(old(bdescv.Contents()), |old(bdescv.Contents())|)
    ensures forall b :: b in bdescv.Contents() <==> b in old(bdescv.Contents()) && b.oblocknr == b.blocknr
  {
    hide LiveBdescs, BTossed;
    ghost var bs, k := bdescv.Contents(), 0;
    BdescEnds(bs);
    var i := 0;
    while i < bdescv.nelems
      invariant bdescv.Valid() && bdescv.data == old(bdescv.data) && k <= |bs|
      invariant BTossed(bdescv.Contents(), bs, k)
      invariant if k < |bs| then i == |LiveBdescs(bs, k)| else i >= |LiveBdescs(bs, k)|
      decreases |bs| - k, |bs| + 1 - i
    {
      BdescNotPastEnd(bdescv.Contents(), bs, k, i);
      k := TossBdescRun(bdescv, i, bs, k);
      if k < |bs| {
        BdescStep(bdescv.Contents(), bs, k);
        k := k + 1;
      }
      i := i + 1;
    }
    BdescAllJudged(bdescv.Contents(), bs, k, i);
    LiveBdescsExactly(bs, |bs|);
    assert bs[..|bs|] == bs;
  }

  lemma {:induction false} BdescNotPastEnd(now: seq<Bdesc>, bs: seq<Bdesc>, k: nat, i: nat)
    requires BTossed(now, bs, k) && (k == |bs| ==> i >= |LiveBdescs(bs, k)|) && i < |now|
    ensures k < |bs|
  {
  }

  lemma {:induction false} BdescAllJudged(now: seq<Bdesc>, bs: seq<Bdesc>, k: nat, i: nat)
    requires BTossed(now, bs, k) && (k < |bs| ==> i == |LiveBdescs(bs, k)|) && i >= |now|
    ensures now == LiveBdescs(bs, |bs|)
  {
    assert k == |bs|;
  }

  // ----- safety -----

  /** Deleting the checkpoints of the period removes no snapshot and no protected checkpoint. */
  ghost predicate Harmless(p: Period, protect: nat, ss: seq<nat>) {
    (p.start < p.end ==> p.end <= protect) && forall x :: p.start <= x < p.end ==> x !in ss
  }

  /** The period of a dead block is harmless, given that a block's life starts no earlier than its own checkpoint. */
  lemma {:induction false} DeadHarmless(v: Vdesc, protect: nat, ss: seq<nat>)
    requires !Live(v, protect, ss) && v.cno != 0 && v.period.start >= v.cno
    ensures Harmless(v.period, protect, ss)
  {
    if v.period.end != v.cno {
      forall x | v.period.start <= x < v.period.end ensures x !in ss {
        assert x in ss ==> Holds(v.period, ss);
      }
    }
  }

  lemma {:induction false} NotHarmless(p: Period, protect: nat, ss: seq<nat>, x: nat)
    requires p.start <= x < p.end && x in ss
    ensures !Harmless(p, protect, ss)
  {
  }

  /** Without that rule a dead block's period may hold a snapshot. */
  lemma {:induction false} RuleNeeded()
    ensures var v := Vdesc(12, 5, 1, Period(3, 5), 0, 0, false);
            !Live(v, 9, [4]) && !Harmless(v.period, 9, [4])
  {
    var v := Vdesc(12, 5, 1, Period(3, 5), 0, 0, false);
    assert [4][0] == 4;
    NotHarmless(v.period, 9, [4], 4);
  }

  /** Nothing that is covered by the periods of dead blocks is a snapshot or protected. */
  lemma {:induction false} UnifiedHarmless(vs: seq<Vdesc>, protect: nat, ss: seq<nat>, unified: seq<Period>)
    requires forall i :: 0 <= i < |vs| && vs[i].cno != 0 ==> vs[i].period.start >= vs[i].cno
    requires SameCover(unified, Deletable(vs, protect, ss, |vs|))
    ensures forall p :: p in unified ==> Harmless(p, protect, ss)
  {
    hide Live, Deletable, Covered, SameCover;
    forall p | p in unified ensures Harmless(p, protect, ss) {
      forall x | p.start <= x < p.end ensures x !in ss {
        InList(unified, p, x);
        CoveredHarmless(vs, protect, ss, unified, x);
      }
      if p.start < p.end {
        InList(unified, p, p.end - 1);
        CoveredHarmless(vs, protect, ss, unified, p.end - 1);
      }
    }
  }

  lemma {:induction false} InList(ps: seq<Period>, p: Period, x: nat)
    requires p in ps && p.start <= x < p.end
    ensures Covered(ps, x)
  {
  }

  lemma {:induction false} CoveredHarmless(vs: seq<Vdesc>, protect: nat, ss: seq<nat>, unified: seq<Period>, x: nat)
    requires forall i :: 0 <= i < |vs| && vs[i].cno != 0 ==> vs[i].period.start >= vs[i].cno
    requires SameCover(unified, Deletable(vs, protect, ss, |vs|)) && Covered(unified, x)
    ensures x < protect && x !in ss
  {
    hide Live, Deletable;
    var dead := Deletable(vs, protect, ss, |vs|);
    assert Covered(dead, x);
    var q :| q in dead && q.start <= x < q.end;
    var k := DeletableFrom(vs, protect, ss, |vs|, q);
    DeadHarmless(vs[k], protect, ss);
    assert x in ss ==> !Harmless(q, protect, ss);
  }
}
