/** The age of checkpoints at a time of the clock, and what the answers of the mapper say about it. */
module CpAge {
  import opened Checkpoints
  import opened Spans
  import opened CpScan

  /** How old checkpoint k is at the time `now`: the time from it to the newest one, and since then. */
  function AgeAt(cps: seq<Cpinfo>, k: nat, now: int): int
    requires k < |cps|
  {
    var newest := cps[|cps| - 1].create;
    Dist(cps, k, |cps| - 1) + (if now > newest then now - newest else 0)
  }

  /** No checkpoint that is within the period at that time has a number below the answer. */
  ghost predicate Protects(cps: seq<Cpinfo>, now: int, period: nat, cno: nat) {
    forall k {:trigger cps[k]} :: 0 <= k < |cps| && AgeAt(cps, k, now) <= period ==> cno <= cps[k].cno
  }

  lemma {:induction false} ProtectsLess(cps: seq<Cpinfo>, now: int, period: nat, cno: nat)
    ensures period > 0 && Protects(cps, now, period, cno) ==> Protects(cps, now, period - 1, cno)
  {
    hide AgeAt;
  }

  /** From one checkpoint to a later one at least the difference of their times passes. */
  lemma {:induction false} DistAtLeast(cps: seq<Cpinfo>, i: nat, j: nat)
    requires i <= j < |cps|
    ensures Dist(cps, i, j) >= cps[j].create - cps[i].create
    decreases j - i
  {
    if i < j {
      DistAtLeast(cps, i + 1, j);
    }
  }

  /** The age of a checkpoint, by way of a later one. */
  lemma {:induction false} AgeThrough(cps: seq<Cpinfo>, k: nat, top: nat, now: int)
    requires k <= top < |cps|
    ensures AgeAt(cps, k, now) == Dist(cps, k, top) + AgeAt(cps, top, now)
    ensures AgeAt(cps, top, now) >= now - cps[top].create
  {
    hide Dist;
    DistSplit(cps, k, top, |cps| - 1);
    DistAtLeast(cps, top, |cps| - 1);
  }

  /** The right answer for the newest recorded checkpoint, some time ago, protects what is within the period now. */
  lemma {:induction false} WithinProtects(cps: seq<Cpinfo>, top: nat, now: int, period: nat, cno: nat)
    requires Ascending(cps) && top < |cps| && cps[top].create <= now && period >= now - cps[top].create
    requires WithinAnswer(cps, top, now - cps[top].create, period, cno)
    ensures Protects(cps, now, period, cno)
  {
    hide Dist, AgeAt;
    var r: nat :| OldestWithin(cps, top, period - (now - cps[top].create), r) && cno == cps[r].cno;
    forall k | 0 <= k < |cps| && AgeAt(cps, k, now) <= period ensures cno <= cps[k].cno {
      if k <= top {
        AgeThrough(cps, k, top, now);
      }
      assert r < k ==> Older(cps[r], cps[k]);
    }
  }

  /** It is the answer of a fresh scan when the clock has not gone back since. */
  lemma {:induction false} WithinIsFresh(cps: seq<Cpinfo>, top: nat, now: nat, period: nat, cno: nat)
    requires Ascending(cps) && top < |cps| && cps[top].create <= now && period >= now - cps[top].create
    requires WithinAnswer(cps, top, now - cps[top].create, period, cno)
    requires AgeAt(cps, top, now) == now - cps[top].create && cps[|cps| - 1].create <= now
    ensures FreshAnswer(cps, now, period, cno)
  {
    var last := |cps| - 1;
    var r: nat :| OldestWithin(cps, top, period - (now - cps[top].create), r) && cno == cps[r].cno;
    hide Dist;
    DistSplit(cps, r, top, last);
    forall q | 0 <= q < r ensures Dist(cps, q, last) > period - (now - cps[last].create) {
      DistSplit(cps, q, top, last);
    }
    assert OldestWithin(cps, last, period - (now - cps[last].create), r);
  }

  /** A fresh scan protects what is within the period. */
  lemma {:induction false} FreshProtects(cps: seq<Cpinfo>, now: nat, period: nat, cno: nat)
    requires Ascending(cps) && FreshAnswer(cps, now, period, cno)
    ensures Protects(cps, now, period, cno)
  {
    hide Dist;
    if cps != [] {
      var last := |cps| - 1;
      var offset := if now > cps[last].create then now - cps[last].create else 0;
      forall k | 0 <= k < |cps| && AgeAt(cps, k, now) <= period ensures cno <= cps[k].cno {
        var r: nat :| OldestWithin(cps, last, period - offset, r) && cno == cps[r].cno;
        assert r < k ==> Older(cps[r], cps[k]);
      }
    }
  }

  /** A checkpoint after the history, within the period: enough time lies between the end of the history and it. */
  lemma {:induction false} SinceEndAtLeast(cps: seq<Cpinfo>, sp: Cpspan, lo: nat, k: nat, now: int, period: nat)
    requires 0 < lo <= k < |cps| && cps[lo - 1].create == sp.end.time
    requires AgeAt(cps, k, now) <= period
    ensures SinceEnd(cps, sp, lo, k) >= now - sp.end.time - period
  {
    AgeThrough(cps, lo - 1, k, now);
    AgeThrough(cps, lo - 1, lo - 1, now);
    assert Dist(cps, lo - 1, k) == SinceEnd(cps, sp, lo, k);
  }
}
