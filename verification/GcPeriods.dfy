/** Unifying the periods of deletable checkpoints: sorting and merging in place. */
module GcPeriods {
  import opened BlockCollect
  import opened Vectors

  /** Some period of the list covers the number. */
  ghost predicate Covered(ps: seq<Period>, x: nat) {
    exists p :: p in ps && p.start <= x < p.end
  }

  ghost predicate SameCover(a: seq<Period>, b: seq<Period>) {
    forall x :: Covered(a, x) <==> Covered(b, x)
  }

  ghost predicate ByStart(ps: seq<Period>) {
    forall i, j :: 0 <= i < j < |ps| ==> ps[i].start <= ps[j].start
  }

  /** Every period ends strictly before the next one starts. */
  ghost predicate Gapped(ps: seq<Period>) {
    forall i, j :: 0 <= i < j < |ps| ==> ps[i].end < ps[j].start
  }

  ghost predicate NonEmptyPeriods(ps: seq<Period>) {
    forall i :: 0 <= i < |ps| ==> ps[i].start < ps[i].end
  }

  function Later(a: nat, b: nat): nat { if a < b then b else a }

  /** The merge of a list sorted by start. */
  function Unified(ps: seq<Period>): seq<Period>
    decreases |ps|
  {
    if |ps| < 2 then ps
    else if ps[0].end < ps[1].start then [ps[0]] + Unified(ps[1..])
    else Unified([Period(ps[0].start, Later(ps[0].end, ps[1].end))] + ps[2..])
  }

  // ----- what the merge keeps -----

  lemma {:induction false} CoverCons(p: Period, ps: seq<Period>, x: nat)
    ensures Covered([p] + ps, x) <==> (p.start <= x < p.end || Covered(ps, x))
  {
    assert forall q :: q in [p] + ps <==> q == p || q in ps;
  }

  /** Merging covers what the list covers, whatever periods are in it. */
  lemma {:induction false} UnifiedCovers(ps: seq<Period>, x: nat)
    requires ByStart(ps)
    ensures Covered(Unified(ps), x) <==> Covered(ps, x)
    decreases |ps|
  {
    hide Covered;
    if |ps| >= 2 {
      assert ps == [ps[0]] + ps[1..];
      assert ps[1..] == [ps[1]] + ps[2..];
      CoverCons(ps[0], ps[1..], x);
      if ps[0].end < ps[1].start {
        UnifiedCovers(ps[1..], x);
        CoverCons(ps[0], Unified(ps[1..]), x);
      } else {
        var p := Period(ps[0].start, Later(ps[0].end, ps[1].end));
        CoverCons(ps[1], ps[2..], x);
        CoverCons(p, ps[2..], x);
        UnifiedCovers([p] + ps[2..], x);
      }
    }
  }

  /** The result starts where the list starts, and its periods lie apart. */
  lemma {:induction false} UnifiedGapped(ps: seq<Period>)
    requires ByStart(ps)
    ensures |Unified(ps)| <= |ps| && (ps != [] ==> Unified(ps) != [] && Unified(ps)[0].start == ps[0].start)
    ensures Gapped(Unified(ps)) && ByStart(Unified(ps))
    decreases |ps|
  {
    if |ps| >= 2 {
      if ps[0].end < ps[1].start {
        UnifiedGapped(ps[1..]);
      } else {
        UnifiedGapped([Period(ps[0].start, Later(ps[0].end, ps[1].end))] + ps[2..]);
      }
    }
  }

  lemma {:induction false} UnifiedNonEmpty(ps: seq<Period>)
    requires NonEmptyPeriods(ps)
    ensures NonEmptyPeriods(Unified(ps))
    decreases |ps|
  {
    if |ps| >= 2 {
      if ps[0].end < ps[1].start {
        UnifiedNonEmpty(ps[1..]);
      } else {
        UnifiedNonEmpty([Period(ps[0].start, Later(ps[0].end, ps[1].end))] + ps[2..]);
      }
    }
  }

  /** Nothing is left to merge in a list whose periods lie apart. */
  lemma {:induction false} UnifiedFixed(ps: seq<Period>)
    requires Gapped(ps)
    ensures Unified(ps) == ps
    decreases |ps|
  {
    if |ps| >= 2 {
      UnifiedFixed(ps[1..]);
      assert ps == [ps[0]] + ps[1..];
    }
  }

  /** Unifying again changes nothing. */
  lemma {:induction false} UnifiedIdempotent(ps: seq<Period>)
    requires ByStart(ps)
    ensures Unified(Unified(ps)) == Unified(ps)
  {
    UnifiedGapped(ps);
    UnifiedFixed(Unified(ps));
  }

  lemma {:induction false} FirstCovered(ps: seq<Period>, x: nat)
    requires Gapped(ps) && NonEmptyPeriods(ps) && ps != []
    ensures Covered(ps, ps[0].start) && !Covered(ps, ps[0].end)
    ensures Covered(ps, x) ==> ps[0].start <= x
    ensures Covered(ps[1..], x) <==> (Covered(ps, x) && ps[0].end <= x)
  {
    assert ps[0] in ps;
    CoverCons(ps[0], ps[1..], x);
    assert ps == [ps[0]] + ps[1..];
    CoverCons(ps[0], ps[1..], ps[0].end);
    forall p | p in ps[1..] ensures ps[0].end < p.start {
      var k :| 0 <= k < |ps[1..]| && ps[1..][k] == p;
      assert ps[k + 1] == p;
    }
  }

  lemma {:induction false} NothingCovered(x: nat)
    ensures !Covered([], x)
  {
  }

  /** Of the lists of non-empty periods that lie apart, only one covers a given set of numbers. */
  lemma {:induction false} CoverDetermines(a: seq<Period>, b: seq<Period>)
    requires Gapped(a) && NonEmptyPeriods(a) && Gapped(b) && NonEmptyPeriods(b)
    requires SameCover(a, b)
    ensures a == b
    decreases |a|
  {
    hide Covered;
    if a == [] || b == [] {
      if a != [] {
        FirstCovered(a, 0);
        NothingCovered(a[0].start);
      }
      if b != [] {
        FirstCovered(b, 0);
        NothingCovered(b[0].start);
      }
    } else {
      SameFirst(a, b);
      forall x ensures Covered(a[1..], x) <==> Covered(b[1..], x) {
        FirstCovered(a, x);
        FirstCovered(b, x);
      }
      CoverDetermines(a[1..], b[1..]);
      assert a == [a[0]] + a[1..] && b == [b[0]] + b[1..];
    }
  }

  lemma {:induction false} SameFirst(a: seq<Period>, b: seq<Period>)
    requires Gapped(a) && NonEmptyPeriods(a) && Gapped(b) && NonEmptyPeriods(b) && a != [] && b != []
    requires SameCover(a, b)
    ensures a[0] == b[0]
  {
    hide Covered;
    FirstCovered(a, b[0].start);
    FirstCovered(b, a[0].start);
    assert a[0].start == b[0].start;
    InFirst(a, b[0].end);
    InFirst(b, a[0].end);
    FirstCovered(a, 0);
    FirstCovered(b, 0);
  }

  lemma {:induction false} InFirst(ps: seq<Period>, x: nat)
    requires ps != []
    ensures ps[0].start <= x < ps[0].end ==> Covered(ps, x)
  {
    assert ps[0] in ps;
  }

  // ----- how few periods can cover the same -----

  /** The starts of these periods lie in different periods of any list that covers no end of theirs. */
  lemma {:induction false} StartsApart(a: seq<Period>, b: seq<Period>)
    requires Gapped(a) && NonEmptyPeriods(a)
    requires forall k :: 0 <= k < |a| ==> Covered(b, a[k].start) && !Covered(b, a[k].end)
    ensures |a| <= |b|
    decreases |a|
  {
    if a != [] {
      var m := Covering(b, a[0].start);
      var rest := b[..m] + b[m + 1..];
      var tail := a[1..];
      forall k | 0 <= k < |tail| ensures Covered(rest, tail[k].start) && !Covered(rest, tail[k].end) {
        assert tail[k] == a[k + 1];
        assert !Covered(b, a[0].end) && b[m] in b;
        Without(b, m, tail[k].start);
        Without(b, m, tail[k].end);
      }
      StartsApart(tail, rest);
    }
  }

  lemma {:induction false} Covering(ps: seq<Period>, x: nat) returns (m: nat)
    requires Covered(ps, x)
    ensures m < |ps| && ps[m].start <= x < ps[m].end
  {
    var p :| p in ps && p.start <= x < p.end;
    m :| m < |ps| && ps[m] == p;
  }

  lemma {:induction false} Without(ps: seq<Period>, m: nat, x: nat)
    requires m < |ps|
    ensures Covered(ps[..m] + ps[m + 1..], x) ==> Covered(ps, x)
    ensures Covered(ps, x) && !(ps[m].start <= x < ps[m].end) ==> Covered(ps[..m] + ps[m + 1..], x)
  {
    assert ps == ps[..m] + [ps[m]] + ps[m + 1..];
  }

  lemma {:induction false} EndsUncovered(ps: seq<Period>, k: nat)
    requires Gapped(ps) && NonEmptyPeriods(ps) && k < |ps|
    ensures Covered(ps, ps[k].start) && !Covered(ps, ps[k].end)
  {
    assert ps[k] in ps;
  }

  /** No list covers the same numbers with fewer periods. */
  ghost predicate Fewest(ps: seq<Period>) {
    forall b :: SameCover(b, ps) ==> |ps| <= |b|
  }

  lemma {:induction false} UnifiedFewest(ps: seq<Period>)
    requires ByStart(ps) && NonEmptyPeriods(ps)
    ensures Fewest(Unified(ps))
  {
    hide Unified, Covered, Gapped, NonEmptyPeriods, ByStart;
    UnifiedGapped(ps);
    UnifiedNonEmpty(ps);
    var u := Unified(ps);
    forall b | SameCover(b, u) ensures |u| <= |b| {
      forall k | 0 <= k < |u| ensures Covered(b, u[k].start) && !Covered(b, u[k].end) {
        EndsUncovered(u, k);
      }
      StartsApart(u, b);
    }
  }

  lemma {:induction false} NonEmptyAnyOrder(a: seq<Period>, b: seq<Period>)
    requires multiset(a) == multiset(b) && NonEmptyPeriods(a)
    ensures NonEmptyPeriods(b)
  {
    forall i | 0 <= i < |b| ensures b[i].start < b[i].end {
      assert b[i] in multiset(a);
    }
  }

  // ----- sorting -----

  /** nilfs_comp_period */
  const StartsFirst: (Period, Period) -> bool := (p: Period, q: Period) => p.start <= q.start

  lemma {:induction false} SortCovers(a: seq<Period>, b: seq<Period>)
    requires multiset(a) == multiset(b)
    ensures SameCover(a, b)
  {
    forall p ensures p in a <==> p in b {
      assert p in a <==> p in multiset(a);
      assert p in b <==> p in multiset(b);
    }
  }

  // ----- merging in place -----

  /** Unifying a list with a period `base` in front that absorbs what it touches. */
  lemma {:induction false} UnifiedStep(base: Period, ps: seq<Period>)
    ensures ps == [] ==> Unified([base] + ps) == [base]
    ensures ps != [] && base.end < ps[0].start ==> Unified([base] + ps) == [base] + Unified(ps)
    ensures ps != [] && base.end >= ps[0].start ==>
              Unified([base] + ps) == Unified([Period(base.start, Later(base.end, ps[0].end))] + ps[1..])
  {
    var all := [base] + ps;
    assert all[1..] == ps;
    assert ps != [] ==> all[2..] == ps[1..];
    assert [base] + [] == [base];
  }

  /** The inner loop: period i absorbs what touches it, up to position j. */
  method AbsorbUpTo(periodv: Vector<Period>, i: nat) returns (j: nat)
    requires periodv.Valid() && i < periodv.nelems
    modifies periodv.data
    ensures periodv.Valid() && i < j <= periodv.nelems
    ensures periodv.Contents()[..i] == old(periodv.Contents())[..i]
    ensures periodv.Contents()[i + 1..] == old(periodv.Contents())[i + 1..]
    ensures old(Unified(periodv.Contents()[i..])) == [periodv.Contents()[i]] + Unified(old(periodv.Contents())[j..])
  {
    ghost var before := periodv.Contents();
    j := i + 1;
    hide Unified;
    assert before[i..] == [before[i]] + before[j..];
    while j < periodv.nelems
      invariant periodv.Valid() && i < j <= |before|
      invariant periodv.Contents()[..i] == before[..i] && periodv.Contents()[i + 1..] == before[i + 1..]
      invariant Unified(before[i..]) == Unified([periodv.Contents()[i]] + before[j..])
    {
      var base, target := periodv.Get(i), periodv.Get(j);
      assert target == before[i + 1..][j - i - 1] == before[j];
      UnifiedStep(base, before[j..]);
      if base.end < target.start {
        break;
      }
      assert before[j..][1..] == before[j + 1..];
      if base.end < target.end {
        periodv.Set(i, base.(end := target.end));
      }
      j := j + 1;
    }
    UnifiedStep(periodv.Contents()[i], before[j..]);
    NothingUnified();
    assert j == |before| ==> before[j..] == [];
  }

  /** Period i absorbs what touches it, and what it absorbed is deleted. */
  method Absorb(periodv: Vector<Period>, i: nat)
    requires periodv.Valid() && i < periodv.nelems
    modifies periodv, periodv.data
    ensures periodv.Valid() && periodv.data == old(periodv.data) && i < periodv.nelems <= old(periodv.nelems)
    ensures periodv.Contents()[..i] == old(periodv.Contents())[..i]
    ensures old(Unified(periodv.Contents()[i..])) == [periodv.Contents()[i]] + Unified(periodv.Contents()[i + 1..])
  {
    hide Unified;
    ghost var before := periodv.Contents();
    var j := AbsorbUpTo(periodv, i);
    Tail(before, periodv.Contents(), i, j);
    if j > i + 1 {
      var ok := periodv.DeleteElements(i + 1, j - i - 1);
    }
  }

  lemma {:induction false} Tail(before: seq<Period>, now: seq<Period>, i: nat, j: nat)
    requires i < j <= |before| == |now| && now[i + 1..] == before[i + 1..]
    ensures now[j..] == before[j..]
    ensures (now[..i + 1] + now[j..])[i + 1..] == before[j..] && (now[..i + 1] + now[j..])[..i + 1] == now[..i + 1]
  {
    assert forall k :: j <= k < |before| ==>
           now[k] == now[i + 1..][k - i - 1] && before[k] == before[i + 1..][k - i - 1];
  }

  lemma {:induction false} NothingUnified()
    ensures Unified([]) == []
  {
  }

  /** The outer loop of nilfs_unify_period. */
  method MergeAll(periodv: Vector<Period>)
    requires periodv.Valid()
    modifies periodv, periodv.data
    ensures periodv.Valid() && periodv.data == old(periodv.data)
    ensures periodv.Contents() == Unified(old(periodv.Contents()))
  {
    hide Unified;
    ghost var sorted := periodv.Contents();
    var i := 0;
    assert sorted[0..] == sorted && sorted[..0] == [];
    while i < periodv.nelems
      invariant periodv.Valid() && periodv.data == old(periodv.data) && i <= periodv.nelems
      invariant Unified(sorted) == periodv.Contents()[..i] + Unified(periodv.Contents()[i..])
      decreases periodv.nelems - i
    {
      MergeNext(periodv, i, sorted);
      i := i + 1;
    }
    assert periodv.Contents()[i..] == [] && periodv.Contents()[..i] == periodv.Contents();
    NothingUnified();
  }

  method MergeNext(periodv: Vector<Period>, i: nat, ghost sorted: seq<Period>)
    requires periodv.Valid() && i < periodv.nelems
    requires Unified(sorted) == periodv.Contents()[..i] + Unified(periodv.Contents()[i..])
    modifies periodv, periodv.data
    ensures periodv.Valid() && periodv.data == old(periodv.data) && i < periodv.nelems <= old(periodv.nelems)
    ensures Unified(sorted) == periodv.Contents()[..i + 1] + Unified(periodv.Contents()[i + 1..])
  {
    hide Unified;
    Absorb(periodv, i);
    Shift(periodv.Contents(), i, Unified(periodv.Contents()[i + 1..]));
  }

  lemma {:induction false} Shift(ps: seq<Period>, i: nat, rest: seq<Period>)
    requires i < |ps|
    ensures ps[..i] + ([ps[i]] + rest) == ps[..i + 1] + rest
  {
  }

  /**
   nilfs_unify_period: the periods cover the same numbers as before, and lie apart; if none was empty,
   no list covers these numbers with fewer periods.
   */
  method UnifyPeriod(periodv: Vector<Period>) returns (ghost sorted: seq<Period>)
    requires periodv.Valid()
    modifies periodv, periodv.data
    ensures periodv.Valid() && periodv.data == old(periodv.data)
    ensures ByStart(sorted) && multiset(sorted) == multiset(old(periodv.Contents()))
    ensures periodv.Contents() == Unified(sorted)
    ensures SameCover(periodv.Contents(), old(periodv.Contents()))
    ensures Gapped(periodv.Contents())
    ensures NonEmptyPeriods(old(periodv.Contents())) ==> Fewest(periodv.Contents())
  {
    periodv.Sort(StartsFirst);
    assert ByStart(periodv.Contents());
    sorted := periodv.Contents();
    hide Unified, Covered, Gapped, Fewest;
    MergeAll(periodv);
    SortCovers(sorted, old(periodv.Contents()));
    UnifiedGapped(sorted);
    forall x ensures Covered(Unified(sorted), x) <==> Covered(sorted, x) {
      UnifiedCovers(sorted, x);
    }
    if NonEmptyPeriods(old(periodv.Contents())) {
      NonEmptyAnyOrder(old(periodv.Contents()), sorted);
      UnifiedFewest(sorted);
    }
  }
}
