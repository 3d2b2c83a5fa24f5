/**
 The checkpoint-number reverse mapper: from a protection period to the oldest checkpoint in it.

 The first call scans backward from the newest checkpoint and records what it passes as spans;
 later calls search, trim or extend that record.  Clock readings are parameters; a reading can
 fail.
 */
module Cnormap {
  import opened Wrappers
  import opened Checkpoints
  import opened CheckpointWalk
  import opened Spans
  import opened CpScan
  import opened CpAge

  class Mapper {
    const nilfs: Nilfs
    var cphist: seq<Cpspan>   // history of time progress, newest span first
    var elapsed: int          // elapsed time of cphist
    var baseTime: nat
    var baseClock: nat

    /** The recorded history is sound and its elapsed time is exact. */
    ghost predicate Valid()
      reads this, nilfs
    {
      && nilfs.Valid()
      && HistoryOk(nilfs.cps, cphist, elapsed)
      && (cphist != [] ==> cphist[0].end.cno < nilfs.nextCno)
    }

    /** The kernel still has the ends of every span. */
    ghost predicate EndsKept()
      reads this, nilfs
    {
      Intact(nilfs.cps, cphist)
    }

    /** The base times belong together, with this difference of the two clocks, and the history ends before them. */
    ghost predicate InStep(difference: int)
      reads this
    {
      cphist != [] ==> baseTime - baseClock == difference && cphist[0].end.time <= baseTime
    }

    constructor (nilfs: Nilfs)
      requires nilfs.Valid()
      ensures Valid() && EndsKept() && this.nilfs == nilfs && cphist == []
      ensures elapsed == baseTime == baseClock == 0
    {
      this.nilfs := nilfs;
      cphist, elapsed, baseTime, baseClock := [], 0, 0, 0;
    }

    /** nilfs_cnormap_cphist_init */
    method InitHistory(realtime: Option<nat>, monotonic: nat, period: nat) returns (cno: Option<nat>)
      requires Valid() && cphist == []
      modifies this, nilfs`mincno
      ensures Valid() && EndsKept()
      ensures cno.Some? ==> realtime.Some? && FreshAnswer(nilfs.cps, realtime.value, period, cno.value)
      ensures cphist != [] ==> realtime == Some(baseTime) && baseClock == monotonic
      ensures cphist != [] ==> nilfs.cps != [] && cphist[0].end == TimeOf(nilfs.cps[|nilfs.cps| - 1])
      ensures cphist == [] ==> baseTime == old(baseTime) && baseClock == old(baseClock)
    {
      hide Intact, SpansOk, WalkDown, Rank, Total;
      ghost var cps := nilfs.cps;
      EmptyHistory(cps);
      if realtime.None? {
        return None;
      }
      var ctx := ScanContext(cphist, elapsed, 0, ScanInit, realtime.value, period, CNO_MAX);
      var queryFailed, w, stop := EnumBackward(nilfs, 0, 0, ScanBackward, ctx);
      AllBelow(cps, nilfs.nextCno);
      ScanFromInit(cps, stop, ctx);
      cphist, elapsed := w.ctx.cphist, w.ctx.elapsed;
      var ok := !queryFailed && (w.Going? || w.ok);
      if w.ctx.state.ScanInit? {
        return if ok then Some(CNO_MAX) else None;
      }
      baseTime, baseClock := realtime.value, monotonic;
      return if ok then Some(w.ctx.minInclCno) else None;
    }

    /** nilfs_cnormap_cphist_extend_backward, from the oldest recorded span on */
    method ExtendBackward(period: nat, index: nat, startCno: nat) returns (cno: Option<nat>)
      requires Valid() && cphist != [] && index == |cphist| - 1 && startCno == cphist[index].start.cno
      modifies `cphist, `elapsed, nilfs`mincno
      ensures Valid() && (old(EndsKept()) ==> EndsKept())
      ensures cphist != [] && cphist[0].end == old(cphist[0].end)
      ensures Extends(old(cphist), cphist)
      ensures cno.Some? && old(elapsed) <= period ==> ReachesBack(nilfs.cps, cphist, elapsed, period, cno.value)
      ensures cno.Some? && old(EndsKept()) && old(elapsed) <= period ==>
                exists r: nat :: OldestWithin(nilfs.cps, old(Top(nilfs.cps, cphist)), period,
                                              r) && cno.value == nilfs.cps[r].cno
    {
      hide Intact, SpansOk, WalkDown, Rank, Total, Splits;
      if startCno == 0 {
        return None;
      }
      ghost var cps := nilfs.cps;
      EndsWithin(cps, cphist, index);
      TotalNonNegative(cps, cphist, |cphist|);
      if startCno == CNO_MIN {
        if elapsed <= period {
          BottomOfList(cps, cphist, elapsed, period);
        }
        return Some(CNO_MIN);
      }
      var ctx := ScanContext(cphist, elapsed, index, ScanNormal, 0, period, startCno);
      var queryFailed, w, stop := EnumBackward(nilfs, startCno - 1, 0, ScanBackward, ctx);
      ScanOnBackward(cps, stop, |cps|, ctx);
      cphist, elapsed := w.ctx.cphist, w.ctx.elapsed;
      return if !queryFailed && (w.Going? || w.ok) then Some(w.ctx.minInclCno) else None;
    }

    /** nilfs_cnormap_cphist_extend_forward */
    method ExtendForward(realtime: Option<nat>, monotonic: nat, period: nat, endCno: nat) returns (cno: Option<nat>)
      requires Valid() && cphist != [] && endCno == cphist[0].end.cno
      modifies this, nilfs`mincno
      ensures Valid() && (old(EndsKept()) ==> EndsKept())
      ensures cphist != []
      ensures realtime.None? ==> (cphist, baseTime, baseClock) == old((cphist, baseTime, baseClock))
      ensures realtime.Some? ==> baseTime == realtime.value && baseClock == monotonic
      ensures cphist[0].end == old(cphist[0].end) ||
              exists k :: 0 <= k < |nilfs.cps| && cphist[0].end == TimeOf(nilfs.cps[k])
      ensures cno.Some? ==> ForwardAnswer(nilfs.cps, old(cphist)[0], period, cno.value)
    {
      hide Intact, SpansOk, WalkUp, Rank, Total;
      if realtime.None? {
        return None;
      }
      ghost var cps := nilfs.cps;
      var latest := cphist[0];
      KeepFirst(cps, cphist, 1);
      SingleTotal(cphist);
      var maxIndex := |cphist| - 1;
      if maxIndex > 0 {
        cphist := cphist[..1];
        elapsed := latest.end.time - latest.start.time;
      }
      var ctx := ScanContext(cphist, elapsed, 0, ScanNormal, 0, period, CNO_MAX);
      var queryFailed, w, stop := EnumForward(nilfs, endCno + 1, 0, ScanForward, ctx);
      ScanOnForward(cps, stop, |cps|, ctx);
      cphist, elapsed := w.ctx.cphist, w.ctx.elapsed;
      baseTime, baseClock := realtime.value, monotonic;
      return if !queryFailed && (w.Going? || w.ok) then Some(w.ctx.minInclCno) else None;
    }

    /**
     nilfs_cnormap_cphist_search: the answer separates the recorded checkpoints at least `period` after
     the start of the history from those before.  In an intact history it is the oldest of the former,
     and the trimmed history still starts at an older checkpoint.
     */
    method Search(period: nat) returns (cno: Option<nat>)
      requires Valid()
      modifies `cphist, `elapsed, nilfs`mincno
      ensures Valid() && (old(EndsKept()) ==> EndsKept())
      ensures cno.None? ==> cphist == old(cphist) && elapsed == old(elapsed)
      ensures cno.Some? ==> 0 < period <= old(elapsed) && old(cphist) != []
      ensures cno.Some? ==> cphist != [] && cphist[0].end == old(cphist)[0].end && elapsed <= old(elapsed)
      ensures cno.Some? ==> Splits(nilfs.cps, old(cphist), old(elapsed) - period, cno.value)
      ensures cno.Some? && old(EndsKept()) ==>
                exists k: nat :: FirstAtLeast(nilfs.cps, old(Bottom(nilfs.cps, cphist)), period, k)
                                 && cno.value == nilfs.cps[k].cno && Bottom(nilfs.cps, cphist) < k
    {
      hide Intact, SpansOk, WalkUp, Rank, Total;
      if |cphist| == 0 || period == 0 {
        return None;
      }
      ghost var cps := nilfs.cps;
      var spans := cphist;
      var maxIndex := |spans| - 1;
      var target := spans[maxIndex];
      var index: nat, delta := maxIndex, 0;
      while period > delta + Width(target)
        invariant index <= maxIndex && target == spans[index]
        invariant Total(spans, |spans|) == Total(spans, index + 1) + delta && 0 <= delta < period
        invariant Valid() && cphist == spans && elapsed == old(elapsed)
        decreases index
      {
        var curr := target;
        if index == 0 {
          return None;
        }
        target := spans[index - 1];
        var gap := GapOfSpans(curr.end.time, target.start.time);
        TotalStep(spans, index);
        if delta + Width(curr) + gap >= period {
          SearchedGap(cps, spans, index, period);
          TotalNonNegative(cps, spans, index);
          cphist, elapsed := spans[..index + 1], elapsed - delta;
          return Some(target.start.cno);
        }
        SpanInOrder(cps, spans, index);
        delta := delta + Width(curr) + gap;
        index := index - 1;
      }
      SpanInOrder(cps, spans, index);
      var found := FindInSpan(spans, index, delta, period);
      if found.None? {
        return None;
      }
      var (trimmed, passed, minInclCno) := found.value;
      cphist, elapsed := spans[..index] + [trimmed], elapsed - passed;
      return Some(minInclCno);
    }

    /**
     The search inside the span that holds the target: the span as it is after the search, the
     time from the start of the history to its start, and the answer.
     */
    method FindInSpan(spans: seq<Cpspan>, index: nat, delta: nat, period: nat)
      returns (found: Option<(Cpspan, int, nat)>)
      requires nilfs.Valid() && SpansOk(nilfs.cps, spans) && index < |spans|
      requires delta == Total(spans, |spans|) - Total(spans, index + 1)
      requires delta < period <= delta + Width(spans[index])
      modifies nilfs`mincno
      ensures nilfs.Valid()
      ensures found.Some? ==>
                var (trimmed, passed, minInclCno) := found.value;
                Searched(nilfs.cps, spans, spans[..index] + [trimmed], Total(spans, |spans|) - passed, period,
                         minInclCno)
    {
      hide Intact, SpansOk, WalkUp, Rank, Total, Searched;
      ghost var cps := nilfs.cps;
      var target, passed: int := spans[index], delta;
      SpanInOrder(cps, spans, index);
      if target.end.cno > target.start.cno {
        var ctx := FindContext(target.start.time + (period - delta), target.end.cno, target.end, target.start, 0);
        var queryFailed, w, stop := EnumForward(nilfs, target.start.cno + 1, 1, Find, ctx);
        if queryFailed || (w.Ended? && !w.ok) {
          return None;
        }
        ghost var k := FindWalk(cps, Rank(cps, target.start.cno + 1), |cps|, Limit(1, |cps|), ctx);
        SearchedSpan(cps, spans, index, period, ctx, w.ctx, k);
        if w.ctx.maxExcl.cno > target.start.cno {
          passed := delta + w.ctx.maxExcl.time - target.start.time;
          target := Cpspan(w.ctx.maxExcl, target.end, target.approxNcp - Min(w.ctx.nskips, target.approxNcp - 1));
        }
        return Some((target, passed, w.ctx.minIncl.cno));
      } else {
        SearchedPoint(cps, spans, index, period);
        return Some((target, passed, target.end.cno));
      }
    }

    /** The time between now and the newest recorded checkpoint. */
    function Offset(monotonic: nat): nat
      reads this
      requires cphist != [] && baseClock <= monotonic
    {
      monotonic - baseClock + (if baseTime > cphist[0].end.time then baseTime - cphist[0].end.time else 0)
    }

    /** nilfs_cnormap_track_back */
    method TrackBack(period: nat, realtime: Option<nat>, monotonic: Option<nat>) returns (cno: Option<nat>)
      requires Valid()
      requires monotonic.Some? ==> baseClock <= monotonic.value
      modifies this, nilfs`mincno
      ensures Valid() && (old(EndsKept()) ==> EndsKept())
      ensures baseClock == old(baseClock) || monotonic == Some(baseClock)
      ensures period == 0 ==> cno == Some(CNO_MAX)
      ensures cno.Some? && period > 0 ==> monotonic.Some?
      ensures cno.Some? && period > 0 ==>
                TrackAnswer(nilfs.cps, old(cphist), old(elapsed), cphist, elapsed,
                            if old(cphist) == [] then 0 else old(Offset(monotonic.value)), realtime, period, cno.value)
      ensures cno.Some? && period > 0 && old(cphist != [] && EndsKept() && cphist[0].end.time <= baseTime) ==>
                AgreesWithClock(nilfs.cps, old(cphist), old(elapsed),
                                old(baseTime) + (monotonic.value - old(baseClock)),
                                realtime, period, cno.value)
      ensures forall difference: int ::
                old(InStep(difference)) &&
                  (monotonic.Some? ==> InTime(nilfs.cps, difference, realtime, monotonic.value)) ==>
                  InStep(difference)
    {
      hide Protects, AgreesWithClock, Intact, SpansOk, Rank, Total, FreshAnswer, ForwardAnswer, Splits, ReachesBack,
        Extends, TrackAnswer, InTime;
      if period == 0 {
        return Some(CNO_MAX);
      }
      if * {
        return None;  // the checkpoint statistics could not be read
      }
      if monotonic.None? {
        return None;
      }
      ghost var spans, recorded, now := cphist, elapsed, baseTime + (monotonic.value - baseClock);
      cno := Branches(period, realtime, monotonic.value);
      if cno.Some? && spans != [] && Intact(nilfs.cps, spans) && spans[0].end.time <= old(baseTime) {
        AnswerAgrees(nilfs.cps, spans, recorded, cphist, elapsed, old(Offset(monotonic.value)), realtime, period,
                     cno.value, now);
      }
    }

    /** The branches of nilfs_cnormap_track_back */
    method Branches(period: nat, realtime: Option<nat>, monotonic: nat) returns (cno: Option<nat>)
      requires Valid() && period > 0 && baseClock <= monotonic
      modifies this, nilfs`mincno
      ensures Valid() && (old(EndsKept()) ==> EndsKept())
      ensures baseClock == old(baseClock) || monotonic == baseClock
      ensures cno.Some? ==>
                TrackAnswer(nilfs.cps, old(cphist), old(elapsed), cphist, elapsed,
                            if old(cphist) == [] then 0 else old(Offset(monotonic)), realtime, period, cno.value)
      ensures forall difference: int ::
                old(InStep(difference)) && InTime(nilfs.cps, difference, realtime, monotonic) ==> InStep(difference)
    {
      hide Intact, SpansOk, Rank, Total, FreshAnswer, ForwardAnswer, Splits, ReachesBack, Extends;
      ghost var cps := nilfs.cps;
      if |cphist| == 0 {
        cno := InitHistory(realtime, monotonic, period);
        return;
      }

      var latest := cphist[0];
      var offset := Offset(monotonic);
      if period < offset / 2 {
        EmptyHistory(cps);
        cphist := [];
        elapsed := 0;
        cno := InitHistory(realtime, monotonic, period);
        return;
      }
      if period < offset {
        cno := ExtendForward(realtime, monotonic, offset - period, latest.end.cno);
        return;
      }
      TotalNonNegative(cps, cphist, |cphist|);
      if period < offset + elapsed {
        SearchIsWithin(cps, cphist, elapsed, offset + elapsed - period, period - offset);
        cno := Search(offset + elapsed - period);
        return;
      }
      var maxIndex := |cphist| - 1;
      var target := cphist[maxIndex];
      if period > offset + elapsed {
        cno := ExtendBackward(period - offset, maxIndex, target.start.cno);
        return;
      }
      AllWithin(cps, cphist, period - offset);
      return Some(target.start.cno);
    }
  }

  /**
   What a call answers.  A fresh scan finds the oldest checkpoint within the period.  Otherwise the
   answer separates the recorded checkpoints within the period from those that are too old, whatever
   the kernel has deleted since they were recorded; when the history is extended backward, it also
   goes back far enough.  On an intact history the answer is the oldest checkpoint within the period,
   except where the period ends exactly at the start of the history; that case and the answer of a
   forward extension are treated below.
   */
  ghost predicate TrackAnswer(cps: seq<Cpinfo>, spans: seq<Cpspan>, elapsed: int, spans': seq<Cpspan>, elapsed': int,
                              offset: nat, realtime: Option<nat>, period: nat, cno: nat)
  {
    if spans == [] || period < offset / 2 then
      realtime.Some? && FreshAnswer(cps, realtime.value, period, cno)
    else if period < offset then
      ForwardAnswer(cps, spans[0], offset - period, cno)
    else if period == offset + elapsed then
      Splits(cps, spans, period - offset, cno) && cno == spans[|spans| - 1].start.cno
    else
      && (if period < offset + elapsed then Splits(cps, spans, period - offset, cno)
          else spans' != [] && Extends(spans, spans') && ReachesBack(cps, spans', elapsed', period - offset, cno))
      && (Intact(cps, spans) ==> WithinAnswer(cps, Top(cps, spans), offset, period, cno))
  }

  /** Far enough from the start of the history is near enough to its end. */
  lemma {:induction false} SearchIsWithin(cps: seq<Cpinfo>, spans: seq<Cpspan>, elapsed: int, target: nat, budget: nat)
    requires Ascending(cps) && HistoryOk(cps, spans, elapsed) && spans != []
    requires 0 < target && target + budget == elapsed
    ensures Intact(cps, spans) ==>
              forall k: nat :: FirstAtLeast(cps, Bottom(cps, spans), target, k) ==>
                OldestWithin(cps, Top(cps, spans), budget, k)
  {
    if Intact(cps, spans) {
      TotalIsDist(cps, spans, |spans|);
      forall k: nat | FirstAtLeast(cps, Bottom(cps, spans), target, k)
        ensures OldestWithin(cps, Top(cps, spans), budget, k)
      {
        FirstIsOldest(cps, Bottom(cps, spans), Top(cps, spans), budget, k);
      }
    }
  }

  lemma {:induction false} SpanInOrder(cps: seq<Cpinfo>, spans: seq<Cpspan>, index: nat)
    requires SpansOk(cps, spans) && index < |spans|
    ensures SpanOk(cps, spans[index])
    ensures Total(spans, index + 1) >= Width(spans[index]) && Total(spans, |spans|) >= Total(spans, index + 1)
  {
    TotalNonNegative(cps, spans, index);
    TotalMonotone(cps, spans, index + 1, |spans|);
  }

  /** The outcome of a search: the trimmed history and the answer. */
  ghost predicate Searched(cps: seq<Cpinfo>, spans: seq<Cpspan>, kept: seq<Cpspan>, elapsed: int, period: nat,
                           cno: nat) {
    && spans != [] && kept != [] && HistoryOk(cps, kept, elapsed)
    && kept[0].end == spans[0].end
    && elapsed <= Total(spans, |spans|)
    && Splits(cps, spans, Total(spans, |spans|) - period, cno)
    && (Intact(cps, spans) ==>
          && Intact(cps, kept)
          && exists k: nat :: FirstAtLeast(cps, Bottom(cps, spans), period, k) && cno == cps[k].cno && Bottom(cps,
              kept) < k)
  }

  /** The target falls before the newer of two spans. */
  lemma {:induction false} SearchedGap(cps: seq<Cpinfo>, spans: seq<Cpspan>, index: nat, period: nat)
    requires Ascending(cps) && SpansOk(cps, spans) && 0 < index < |spans|
    requires var delta := Total(spans, |spans|) - Total(spans, index + 1);
             var width, gap := Width(spans[index]), GapOfSpans(spans[index].end.time, spans[index - 1].start.time);
             delta + width < period <= delta + width + gap
    ensures period <= Total(spans, |spans|)
    ensures Searched(cps, spans, spans[..index + 1], Total(spans, index + 1), period, spans[index - 1].start.cno)
  {
    hide Intact, SpansOk, Rank, Total;
    KeepFirst(cps, spans, index + 1);
    SpanInOrder(cps, spans, index);
    SpanInOrder(cps, spans, index - 1);
    TotalStep(spans, index);
    SplitsAtGap(cps, spans, index, Total(spans, |spans|) - period);
    if Intact(cps, spans) {
      SearchInGap(cps, spans, index, period);
      StartsApart(cps, spans, index);
    }
  }

  /** The target falls inside a span, which then starts at the last checkpoint that is too early. */
  lemma {:induction false} SearchedSpan(cps: seq<Cpinfo>, spans: seq<Cpspan>, index: nat, period: nat,
                                        ctx: FindContext, res: FindContext, k: nat)
    requires Ascending(cps) && SpansOk(cps, spans) && index < |spans|
    requires var delta, sp := Total(spans, |spans|) - Total(spans, index + 1), spans[index];
             && 0 <= delta < period <= delta + Width(sp)
             && ctx == FindContext(sp.start.time + (period - delta), sp.end.cno, sp.end, sp.start, 0)
    requires Rank(cps, spans[index].start.cno + 1) <= k <= |cps|
    requires forall q :: Rank(cps, spans[index].start.cno + 1) <= q < k ==> Passed(cps, ctx, q)
    requires k < |cps| ==> !Passed(cps, ctx, k)
    requires var lo := Rank(cps, spans[index].start.cno + 1);
             res == FindContext(ctx.time, ctx.endCno, if k < |cps| && cps[k].cno <= ctx.endCno then TimeOf(cps[k])
                                else ctx.minIncl,
                                if k > lo then TimeOf(cps[k - 1]) else ctx.maxExcl, k - lo)
    ensures var delta, sp := Total(spans, |spans|) - Total(spans, index + 1), spans[index];
            if res.maxExcl.cno > sp.start.cno then
              var trimmed := Cpspan(res.maxExcl, sp.end, sp.approxNcp - Min(res.nskips, sp.approxNcp - 1));
              Searched(cps, spans, spans[..index] + [trimmed],
                       Total(spans, |spans|) - (delta + res.maxExcl.time - sp.start.time), period, res.minIncl.cno)
            else
              Searched(cps, spans, spans[..index] + [sp], Total(spans, |spans|) - delta, period, res.minIncl.cno)
  {
    hide Intact, Rank, Total, Splits, SpansOk, FirstAtLeast;
    var sp := spans[index];
    var lo := Rank(cps, sp.start.cno + 1);
    SpanInOrder(cps, spans, index);
    SearchedExact(cps, spans, index, period, ctx, k);
    SearchedSplits(cps, spans, index, period, ctx, res, k);
    if k > lo {
      RankAt(cps, sp.start.cno + 1, k - 1);
      assert Passed(cps, ctx, k - 1) && InSpan(sp, cps[k - 1]);
      TrimOldest(cps, spans, index, k - 1, sp.approxNcp - Min(res.nskips, sp.approxNcp - 1));
    } else {
      assert spans[..index] + [sp] == spans[..index + 1];
      KeepFirst(cps, spans, index + 1);
    }
  }

  /** In an intact history the search inside a span finds the first checkpoint that is far enough. */
  lemma {:induction false} SearchedExact(cps: seq<Cpinfo>, spans: seq<Cpspan>, index: nat, period: nat,
                                         ctx: FindContext, k: nat)
    requires Ascending(cps) && SpansOk(cps, spans) && index < |spans|
    requires var delta, sp := Total(spans, |spans|) - Total(spans, index + 1), spans[index];
             && 0 <= delta < period <= delta + Width(sp)
             && ctx == FindContext(sp.start.time + (period - delta), sp.end.cno, sp.end, sp.start, 0)
    requires var lo := Rank(cps, spans[index].start.cno + 1);
             lo <= k <= |cps| && (forall q :: lo <= q < k ==> Passed(cps, ctx, q)) &&
               (k < |cps| ==> !Passed(cps, ctx, k))
    ensures Intact(cps, spans) ==>
              && k < |cps| && cps[k].cno <= spans[index].end.cno && FirstAtLeast(cps, Bottom(cps, spans), period, k)
              && Rank(cps, spans[index].start.cno) < Rank(cps, spans[index].start.cno + 1)
  {
    hide Intact, Rank, Total;
    if Intact(cps, spans) {
      SearchInSpan(cps, spans, index, period, ctx, k);
      SpanStart(cps, spans, index);
      RankOf(cps, Rank(cps, spans[index].start.cno));
      EndsListed(cps, spans, index);
    }
  }

  /** The number that the search inside a span finds separates the checkpoints of the span by their times. */
  lemma {:induction false} SearchedSplits(cps: seq<Cpinfo>, spans: seq<Cpspan>, index: nat, period: nat,
                                          ctx: FindContext, res: FindContext, k: nat)
    requires Ascending(cps) && SpansOk(cps, spans) && index < |spans|
    requires var delta, sp := Total(spans, |spans|) - Total(spans, index + 1), spans[index];
             && 0 <= delta < period <= delta + Width(sp)
             && ctx == FindContext(sp.start.time + (period - delta), sp.end.cno, sp.end, sp.start, 0)
    requires var lo := Rank(cps, spans[index].start.cno + 1);
             && lo <= k <= |cps| && (forall q :: lo <= q < k ==> Passed(cps, ctx, q)) &&
                (k < |cps| ==> !Passed(cps, ctx, k))
             && res.minIncl == if k < |cps| && cps[k].cno <= ctx.endCno then TimeOf(cps[k]) else ctx.minIncl
    ensures Splits(cps, spans, Total(spans, |spans|) - period, res.minIncl.cno)
  {
    hide Rank, Total;
    var sp, lo := spans[index], Rank(cps, spans[index].start.cno + 1);
    assert SpanOk(cps, sp);
    if k < |cps| {
      RankAt(cps, sp.start.cno + 1, k);
    }
    forall q | 0 <= q < |cps| && InSpan(sp, cps[q]) ensures cps[q].cno < res.minIncl.cno <==> cps[q].create < ctx.time {
      RankAt(cps, sp.start.cno + 1, q);
      if k < |cps| {
        assert q < k ==> Older(cps[q], cps[k]);
        assert k < q ==> Older(cps[k], cps[q]);
        assert k <= q && InSpan(sp, cps[k]) ==> NotLater(cps[k], cps[q]);
      }
      assert lo <= q < k ==> Passed(cps, ctx, q);
    }
    SplitsAtSpan(cps, spans, index, Total(spans, |spans|) - period, res.minIncl.cno);
  }

  lemma {:induction false} EndsListed(cps: seq<Cpinfo>, spans: seq<Cpspan>, index: nat)
    requires Intact(cps, spans) && index < |spans|
    ensures Listed(cps, spans[index].start) && Listed(cps, spans[index].end)
  {
  }

  /** A span of one checkpoint has no width, so no target falls inside it. */
  lemma {:induction false} SearchedPoint(cps: seq<Cpinfo>, spans: seq<Cpspan>, index: nat, period: nat)
    requires Ascending(cps) && SpansOk(cps, spans) && index < |spans|
    requires var delta := Total(spans, |spans|) - Total(spans, index + 1);
             0 <= delta < period <= delta + Width(spans[index])
    requires spans[index].end.cno <= spans[index].start.cno
    ensures Searched(cps, spans, spans[..index] + [spans[index]], Total(spans, index + 1), period, spans[index].end.cno)
  {
    hide SpansOk, Total, Intact, Rank;
    SpanInOrder(cps, spans, index);
    if Intact(cps, spans) {
      EndsListed(cps, spans, index);
    }
    forall q | 0 <= q < |cps| ensures !InSpan(spans[index], cps[q]) {
      assert SpanOk(cps, spans[index]);
    }
    SplitsAtSpan(cps, spans, index, Total(spans, |spans|) - period, spans[index].end.cno);
    assert spans[..index] + [spans[index]] == spans[..index + 1];
    KeepFirst(cps, spans, index + 1);
  }

  lemma {:induction false} StartsApart(cps: seq<Cpinfo>, spans: seq<Cpspan>, index: nat)
    requires Ascending(cps) && SpansOk(cps, spans) && Intact(cps, spans) && 0 < index < |spans|
    ensures Rank(cps, spans[index].start.cno) < Rank(cps, spans[index - 1].start.cno)
  {
    WidthIsDist(cps, spans[index]);
    MeetAtNeighbours(cps, spans, index);
  }

  lemma {:induction false} SingleTotal(spans: seq<Cpspan>)
    requires spans != []
    ensures Total(spans, 1) == Width(spans[0])
    ensures |spans| == 1 ==> spans[..1] == spans
  {
  }

  /** A history that reaches down to the first number there can be. */
  lemma {:induction false} BottomOfList(cps: seq<Cpinfo>, spans: seq<Cpspan>, elapsed: int, period: nat)
    requires Ascending(cps) && HistoryOk(cps, spans, elapsed) && spans != []
    requires spans[|spans| - 1].start.cno == CNO_MIN && elapsed <= period
    ensures ReachesBack(cps, spans, elapsed, period, CNO_MIN)
    ensures Intact(cps, spans) ==>
              exists r: nat :: OldestWithin(cps, Top(cps, spans), period, r) && CNO_MIN == cps[r].cno
  {
    hide Total, SpansOk, Intact, Splits, Rank, OldestWithin;
    AllWithin(cps, spans, period);
    NoneBelow(cps);
    if Intact(cps, spans) {
      BottomIsOldest(cps, spans, period);
    }
  }

  lemma {:induction false} BottomIsOldest(cps: seq<Cpinfo>, spans: seq<Cpspan>, period: nat)
    requires Ascending(cps) && SpansOk(cps, spans) && Intact(cps, spans) && spans != [] &&
             Total(spans, |spans|) <= period
    requires spans[|spans| - 1].start.cno == CNO_MIN && Rank(cps, CNO_MIN) == 0
    ensures OldestWithin(cps, Top(cps, spans), period, 0) && cps[0].cno == CNO_MIN
  {
    hide Total, SpansOk, Intact, Rank, Dist;
    EndsListed(cps, spans, |spans| - 1);
    TotalIsDist(cps, spans, |spans|);
    OldestByNeighbour(cps, Top(cps, spans), period, 0);
  }

  lemma {:induction false} NoneBelow(cps: seq<Cpinfo>)
    requires Ascending(cps)
    ensures Rank(cps, CNO_MIN) == 0
  {
    if |cps| > 0 {
      RankAt(cps, CNO_MIN, 0);
    }
  }

  lemma {:induction false} EmptyHistory(cps: seq<Cpinfo>)
    ensures HistoryOk(cps, [], 0) && Intact(cps, [])
    ensures forall elapsed :: HistoryOk(cps, [], elapsed) ==> elapsed == 0
  {
  }

  lemma {:induction false} AllBelow(cps: seq<Cpinfo>, bound: nat)
    requires Ascending(cps)
    requires |cps| > 0 ==> cps[|cps| - 1].cno < bound
    ensures Rank(cps, bound) == |cps|
  {
    if |cps| > 0 {
      RankAt(cps, bound, |cps| - 1);
    }
  }

  // ----- the period ends exactly at the start of the history -----

  /** Then the answer is right just when no older checkpoint shares the time of the oldest recorded one. */
  lemma {:induction false} EqualPeriodExact(cps: seq<Cpinfo>, bottom: nat, top: nat)
    requires bottom <= top < |cps|
    ensures OldestWithin(cps, top, Dist(cps, bottom, top), bottom) <==>
            (bottom > 0 ==> cps[bottom - 1].create != cps[bottom].create)
  {
    if bottom > 0 {
      DistSplit(cps, bottom - 1, bottom, top);
      assert Dist(cps, bottom - 1, bottom) == GapOfSpans(cps[bottom - 1].create, cps[bottom].create);
      if cps[bottom - 1].create != cps[bottom].create {
        OldestByNeighbour(cps, top, Dist(cps, bottom, top), bottom);
      }
    } else {
      OldestByNeighbour(cps, top, Dist(cps, bottom, top), bottom);
    }
  }

  /**
   A list and the history that a first call at time 20 with a period of 5 records of it.  Asked next
   for a period of 10, the mapper can only answer checkpoint 2; but checkpoint 1 is as old.
   */
  lemma {:induction false} EqualPeriodMisses() returns (cps: seq<Cpinfo>, spans: seq<Cpspan>)
    ensures Ascending(cps) && spans == [Cpspan(Cptime(2, 10), Cptime(3, 20), 2)]
    ensures cps == [Cpinfo(1, 10, false, false), Cpinfo(2, 10, false, false), Cpinfo(3, 20, false, false)]
    ensures var ctx := WalkDown(cps, 0, 3, 3, ScanBackward, ScanContext([], 0, 0, ScanInit, 20, 5, CNO_MAX)).ctx;
            ctx.cphist == spans && ctx.elapsed == 10
    ensures HistoryOk(cps, spans, 10) && Intact(cps, spans)
    ensures forall cno :: TrackAnswer(cps, spans, 10, spans, 10, 0, Some(20), 10, cno) <==> cno == 2
    ensures !WithinAnswer(cps, 2, 0, 10, 2) && WithinAnswer(cps, 2, 0, 10, 1)
  {
    cps := [Cpinfo(1, 10, false, false), Cpinfo(2, 10, false, false), Cpinfo(3, 20, false, false)];
    spans := [Cpspan(Cptime(2, 10), Cptime(3, 20), 2)];
    ScanOfThree(cps, spans);
    ScanFromInit(cps, 0, ScanContext([], 0, 0, ScanInit, 20, 5, CNO_MAX));
    AllWithin(cps, spans, 10);
    OldestOfThree(cps);
  }

  lemma {:induction false} ScanOfThree(cps: seq<Cpinfo>, spans: seq<Cpspan>)
    requires cps == [Cpinfo(1, 10, false, false), Cpinfo(2, 10, false, false), Cpinfo(3, 20, false, false)]
    requires spans == [Cpspan(Cptime(2, 10), Cptime(3, 20), 2)]
    ensures var ctx := WalkDown(cps, 0, 3, 3, ScanBackward, ScanContext([], 0, 0, ScanInit, 20, 5, CNO_MAX)).ctx;
            ctx.cphist == spans && ctx.elapsed == 10
  {
    assert [] + [SingleSpan(cps[2])] == [SingleSpan(cps[2])];
    assert [SingleSpan(cps[2])][0 := spans[0]] == spans;
    var first := ScanContext([SingleSpan(cps[2])], 0, 0, ScanNormal, 20, 5, 3);
    assert Visit(cps[2], 3, ScanBackward, ScanContext([], 0, 0, ScanInit, 20, 5, CNO_MAX)) == Going(2, first);
    var second := ScanContext(spans, 10, 0, ScanDone, 20, 5, 3);
    assert Visit(cps[1], 2, ScanBackward, first) == Ended(true, second);
  }

  lemma {:induction false} OldestOfThree(cps: seq<Cpinfo>)
    requires cps == [Cpinfo(1, 10, false, false), Cpinfo(2, 10, false, false), Cpinfo(3, 20, false, false)]
    ensures !WithinAnswer(cps, 2, 0, 10, 2) && WithinAnswer(cps, 2, 0, 10, 1)
  {
    assert Dist(cps, 1, 2) == GapOfSpans(10, 20) + Dist(cps, 2, 2);
    assert Dist(cps, 0, 2) == GapOfSpans(10, 10) + Dist(cps, 1, 2);
    OldestByNeighbour(cps, 2, 10, 0);
    forall r: nat | OldestWithin(cps, 2, 10, r) ensures r == 0 {
      OldestUnique(cps, 2, 10, 0, r);
    }
  }

  // ----- the period ends after the newest recorded checkpoint -----

  /** The right answer there: the first newer checkpoint at least `target` after the end of the history. */
  ghost predicate ForwardExact(cps: seq<Cpinfo>, sp: Cpspan, target: nat, cno: nat) {
    var lo := Rank(cps, sp.end.cno + 1);
    || (cno == CNO_MAX && forall q :: lo <= q < |cps| ==> SinceEnd(cps, sp, lo, q) < target)
    || (exists k :: lo <= k < |cps| && cno == cps[k].cno && SinceEnd(cps, sp, lo, k) >= target
                    && forall q :: lo <= q < k ==> SinceEnd(cps, sp, lo, q) < target)
  }

  lemma {:induction false} SinceEndStep(cps: seq<Cpinfo>, sp: Cpspan, lo: nat, q: nat)
    requires lo < q < |cps|
    ensures SinceEnd(cps, sp, lo, q) == SinceEnd(cps, sp, lo, q - 1) + GapOfSpans(cps[q - 1].create, cps[q].create)
  {
    DistSplit(cps, lo, q - 1, q);
    assert Dist(cps, q - 1, q) == GapOfSpans(cps[q - 1].create, cps[q].create);
  }

  lemma {:induction false} FirstMovesClock(cps: seq<Cpinfo>, sp: Cpspan, lo: nat, target: nat, q: nat)
    requires lo <= q < |cps| && target > 0 && sp.start.time <= sp.end.time
    requires SinceEnd(cps, sp, lo, q) >= target && (q > lo ==> SinceEnd(cps, sp, lo, q - 1) < target)
    ensures Reaches(cps, sp, lo, target, q)
  {
    if q > lo {
      SinceEndStep(cps, sp, lo, q);
    } else {
      assert Dist(cps, lo, lo) == 0;
    }
  }

  /** The first checkpoint far enough, if there is one that is. */
  lemma {:induction false} FirstExists(cps: seq<Cpinfo>, sp: Cpspan, lo: nat, target: nat, q: nat) returns (k: nat)
    requires lo <= q < |cps| && SinceEnd(cps, sp, lo, q) >= target
    ensures lo <= k <= q && SinceEnd(cps, sp, lo, k) >= target
    ensures forall p :: lo <= p < k ==> SinceEnd(cps, sp, lo, p) < target
    decreases q
  {
    k := q;
    if q > lo {
      if SinceEnd(cps, sp, lo, q - 1) >= target {
        k := FirstExists(cps, sp, lo, target, q - 1);
      } else {
        forall p | lo <= p < q ensures SinceEnd(cps, sp, lo, p) < target {
          DistSplit(cps, lo, p, q - 1);
        }
      }
    }
  }

  /** A forward extension never answers a number above a checkpoint that the period covers. */
  lemma {:induction false} ForwardNeverTooNew(cps: seq<Cpinfo>, sp: Cpspan, target: nat, cno: nat, q: nat)
    requires Ascending(cps) && sp.start.time <= sp.end.time && target > 0
    requires Rank(cps, sp.end.cno + 1) <= q < |cps| && ForwardAnswer(cps, sp, target, cno)
    requires SinceEnd(cps, sp, Rank(cps, sp.end.cno + 1), q) >= target
    ensures cno <= cps[q].cno
  {
    hide Rank, Reaches, SinceEnd;
    var lo := Rank(cps, sp.end.cno + 1);
    var k := FirstExists(cps, sp, lo, target, q);
    FirstMovesClock(cps, sp, lo, target, k);
    assert k < q ==> Older(cps[k], cps[q]);
    var j :| lo <= j < |cps| && (cno == cps[j].cno || cno == CNO_MAX) && Reaches(cps, sp, lo, target, j)
             && forall p :: lo <= p < j ==> !Reaches(cps, sp, lo, target, p);
    assert j < k ==> Older(cps[j], cps[k]);
  }

  /** It is exact when the newest span has no width, or when any tick of the clock is enough. */
  lemma {:induction false} ForwardExactIf(cps: seq<Cpinfo>, sp: Cpspan, target: nat, cno: nat)
    requires Ascending(cps) && sp.start.time <= sp.end.time && target > 0
    requires ForwardAnswer(cps, sp, target, cno)
    requires Width(sp) == 0 || target == 1
    ensures ForwardExact(cps, sp, target, cno)
  {
    var lo := Rank(cps, sp.end.cno + 1);
    hide Rank;
    forall q | lo <= q < |cps| ensures Reaches(cps, sp, lo, target, q) ==> SinceEnd(cps, sp, lo, q) >= target {
      if q > lo {
        SinceEndStep(cps, sp, lo, q);
      }
    }
    hide Reaches, SinceEnd;
    if q :| lo <= q < |cps| && SinceEnd(cps, sp, lo, q) >= target {
      var k := FirstExists(cps, sp, lo, target, q);
      FirstMovesClock(cps, sp, lo, target, k);
      forall p | lo <= p < k ensures !Reaches(cps, sp, lo, target, p) {
        assert SinceEnd(cps, sp, lo, p) < target;
      }
    }
  }

  /** A list goes on with a checkpoint that is newer than all of its own. */
  lemma {:induction false} OneMore(cps: seq<Cpinfo>, next: Cpinfo)
    requires Ascending(cps) && Rank(cps, next.cno) == |cps| && CNO_MIN <= next.cno < CNO_MAX
    ensures Ascending(cps + [next]) && Rank(cps + [next], next.cno) == |cps|
  {
    var cps' := cps + [next];
    forall i | 0 <= i < |cps| ensures Older(cps'[i], next) {
      RankAt(cps, next.cno, i);
    }
    forall i, j | 0 <= i < j < |cps'| ensures Older(cps'[i], cps'[j]) {
      assert j < |cps| ==> Older(cps[i], cps[j]);
    }
    RankOf(cps', |cps|);
  }

  /** Otherwise some continuation of the list makes it answer a checkpoint that is too old. */
  lemma {:induction false} ForwardTooOldOtherwise(cps: seq<Cpinfo>, sp: Cpspan, target: nat)
    returns (cps': seq<Cpinfo>, cno: nat)
    requires Ascending(cps) && Rank(cps, sp.end.cno + 1) == |cps| && sp.end.cno + 1 < CNO_MAX
    requires Width(sp) > 0 && target > 1
    ensures Ascending(cps') && cps <= cps' && |cps'| == |cps| + 1
    ensures ForwardAnswer(cps', sp, target, cno)
    ensures !ForwardExact(cps', sp, target, cno)
  {
    var n := |cps|;
    var next := Cpinfo(sp.end.cno + 1, sp.end.time + target - 1, false, false);
    cps', cno := cps + [next], next.cno;
    hide Rank, Ascending;
    OneMore(cps, next);
    assert Dist(cps', n, n) == 0;
    assert SinceEnd(cps', sp, n, n) == target - 1;
    assert Reaches(cps', sp, n, target, n);
  }

  // ----- answers and the clock -----

  /** An older checkpoint shares the time of the oldest recorded one. */
  ghost predicate StartShared(cps: seq<Cpinfo>, spans: seq<Cpspan>)
    requires spans != []
  {
    var b := Bottom(cps, spans);
    0 < b < |cps| && cps[b - 1].create == cps[b].create
  }

  /** The wall clock keeps its difference from the monotonic one, and no checkpoint is from the future. */
  ghost predicate InTime(cps: seq<Cpinfo>, difference: int, realtime: Option<nat>, monotonic: nat) {
    && (realtime.Some? ==> realtime.value - monotonic == difference)
    && (forall i :: 0 <= i < |cps| ==> cps[i].create <= difference + monotonic)
  }

  /**
   What an answer is worth at the time `now`, given an intact history that ended before: it protects
   every checkpoint younger than the period.  Unless the period ends exactly at the start of the history
   and an older checkpoint shares the time of that start, it protects those that are just as old too;
   and unless the newest recorded checkpoint is older than the period or the clock went back after it,
   it is then the answer of a fresh scan.
   */
  ghost predicate AgreesWithClock(cps: seq<Cpinfo>, spans: seq<Cpspan>, elapsed: int, now: int, realtime: Option<nat>,
                                  period: nat, cno: nat)
    requires spans != [] && period > 0
  {
    var offset := now - spans[0].end.time;
    var excepted := period == offset + elapsed && StartShared(cps, spans);
    (realtime.Some? ==> realtime.value == now) ==>
      && Protects(cps, now, period - 1, cno)
      && (excepted || Protects(cps, now, period, cno))
      && (excepted || period < offset || !NotBackSince(cps, Top(cps, spans), now) || FreshAnswer(cps, now, period, cno))
  }

  /** The clock has not gone back after checkpoint k: it is as old as the clock says. */
  ghost predicate NotBackSince(cps: seq<Cpinfo>, k: nat, now: int) {
    k < |cps| && 0 <= now && AgeAt(cps, k, now) == now - cps[k].create && cps[|cps| - 1].create <= now
  }

  lemma {:induction false} AnswerAgrees(cps: seq<Cpinfo>, spans: seq<Cpspan>, elapsed: int,
                                        spans': seq<Cpspan>, elapsed': int, offset: nat, realtime: Option<nat>,
                                        period: nat, cno: nat, now: int)
    requires Ascending(cps) && HistoryOk(cps, spans, elapsed) && Intact(cps, spans) && spans != [] && period > 0
    requires offset == now - spans[0].end.time
    requires TrackAnswer(cps, spans, elapsed, spans', elapsed', offset, realtime, period, cno)
    ensures AgreesWithClock(cps, spans, elapsed, now, realtime, period, cno)
  {
    hide Rank, Dist, Total, SpansOk, Splits, ReachesBack, Extends, ForwardAnswer, AgeAt, Protects, WithinAnswer,
      FreshAnswer, StartShared;
    EndsListed(cps, spans, 0);
    var top := Top(cps, spans);
    if realtime.Some? ==> realtime.value == now {
      if period < offset / 2 {
        FreshProtects(cps, now, period, cno);
      } else if period < offset {
        ForwardProtects(cps, spans, period, cno, now);
      } else if period == offset + elapsed && StartShared(cps, spans) {
        StartProtects(cps, spans, elapsed, now, period, cno);
      } else {
        if period == offset + elapsed {
          StartIsOldest(cps, spans, elapsed, period - offset, cno);
          WithinByOldest(cps, top, offset, period, Bottom(cps, spans), cno);
        }
        WithinProtects(cps, top, now, period, cno);
        if NotBackSince(cps, top, now) {
          WithinIsFresh(cps, top, now, period, cno);
        }
      }
      ProtectsLess(cps, now, period, cno);
    }
  }

  /** The start of an intact history is no younger than any older checkpoint. */
  lemma {:induction false} StartProtects(cps: seq<Cpinfo>, spans: seq<Cpspan>, elapsed: int, now: int, period: nat,
                                         cno: nat)
    requires Ascending(cps) && HistoryOk(cps, spans, elapsed) && Intact(cps, spans) && spans != [] && period > 0
    requires period == now - spans[0].end.time + elapsed && cno == spans[|spans| - 1].start.cno
    ensures Protects(cps, now, period - 1, cno)
  {
    hide Rank, Dist, Total, AgeAt;
    EndsListed(cps, spans, 0);
    EndsListed(cps, spans, |spans| - 1);
    TotalIsDist(cps, spans, |spans|);
    var top, bottom := Top(cps, spans), Bottom(cps, spans);
    forall k | 0 <= k < |cps| && AgeAt(cps, k, now) < period ensures cno <= cps[k].cno {
      if k < bottom {
        AgeThrough(cps, k, top, now);
        DistSplit(cps, k, bottom, top);
        assert false;
      }
      assert bottom < k ==> Older(cps[bottom], cps[k]);
    }
  }

  lemma {:induction false} WithinByOldest(cps: seq<Cpinfo>, top: nat, offset: nat, period: nat, r: nat, cno: nat)
    requires period >= offset && OldestWithin(cps, top, period - offset, r) && cno == cps[r].cno
    ensures WithinAnswer(cps, top, offset, period, cno)
  {
  }

  /** The start of an intact history is the oldest checkpoint within its own length, unless it is shared. */
  lemma {:induction false} StartIsOldest(cps: seq<Cpinfo>, spans: seq<Cpspan>, elapsed: int, budget: nat, cno: nat)
    requires Ascending(cps) && HistoryOk(cps, spans, elapsed) && Intact(cps, spans) && spans != [] && budget == elapsed
    requires !StartShared(cps, spans) && cno == spans[|spans| - 1].start.cno
    ensures OldestWithin(cps, Top(cps, spans), budget, Bottom(cps, spans)) && cno == cps[Bottom(cps, spans)].cno
  {
    hide Rank, Dist, Total;
    EndsListed(cps, spans, |spans| - 1);
    TotalIsDist(cps, spans, |spans|);
    EqualPeriodExact(cps, Bottom(cps, spans), Top(cps, spans));
  }

  lemma {:induction false} ForwardProtects(cps: seq<Cpinfo>, spans: seq<Cpspan>, period: nat, cno: nat, now: int)
    requires Ascending(cps) && SpansOk(cps, spans) && Intact(cps, spans) && spans != []
    requires 0 <= period < now - spans[0].end.time
    requires ForwardAnswer(cps, spans[0], now - spans[0].end.time - period, cno)
    ensures Protects(cps, now, period, cno)
  {
    hide Dist, AgeAt, ForwardAnswer;
    var sp := spans[0];
    var top, lo := Top(cps, spans), Rank(cps, sp.end.cno + 1);
    EndsListed(cps, spans, 0);
    RankOf(cps, top);
    assert SpanOk(cps, sp);
    hide Rank, SpanOk;
    forall k | 0 <= k < |cps| && AgeAt(cps, k, now) <= period ensures cno <= cps[k].cno {
      if k <= top {
        AgeThrough(cps, k, top, now);
        assert false;
      } else {
        SinceEndAtLeast(cps, sp, lo, k, now, period);
        ForwardNeverTooNew(cps, sp, now - sp.end.time - period, cno, k);
      }
    }
  }

  // ----- what every answer protects -----

  /** By the recorded times the checkpoint is within the budget, or it is newer than all that are recorded. */
  ghost predicate RecordedWithin(cps: seq<Cpinfo>, spans: seq<Cpspan>, budget: int, k: nat)
    requires k < |cps|
  {
    spans != [] &&
    (cps[k].cno > spans[0].end.cno ||
     exists j :: 0 <= j < |spans| && InSpan(spans[j], cps[k]) && Age(spans, j, cps[k]) <= budget)
  }

  /** The checkpoint is no older than the period, by what the call goes by: the whole list, or its history. */
  ghost predicate InPeriod(cps: seq<Cpinfo>, spans: seq<Cpspan>, elapsed: int, spans': seq<Cpspan>,
                           offset: nat, realtime: Option<nat>, period: nat, k: nat)
    requires k < |cps|
  {
    if spans == [] || period < offset / 2 then
      var newest := cps[|cps| - 1].create;
      realtime.Some? && Dist(cps, k, |cps| - 1)
        + (if realtime.value > newest then realtime.value - newest else 0) <= period
    else if period < offset then
      var lo := Rank(cps, spans[0].end.cno + 1);
      lo <= k && SinceEnd(cps, spans[0], lo, k) >= offset - period
    else
      RecordedWithin(cps, if period <= offset + elapsed then spans else spans', period - offset, k)
  }

  /** No answer is above the number of a checkpoint that is within the period. */
  lemma {:induction false} AnswerProtects(cps: seq<Cpinfo>, spans: seq<Cpspan>, elapsed: int, spans': seq<Cpspan>,
                                          elapsed': int,
                                          offset: nat, realtime: Option<nat>, period: nat, cno: nat, k: nat)
    requires Ascending(cps) && HistoryOk(cps, spans, elapsed) && k < |cps|
    requires TrackAnswer(cps, spans, elapsed, spans', elapsed', offset, realtime, period, cno)
    requires InPeriod(cps, spans, elapsed, spans', offset, realtime, period, k)
    ensures cno <= cps[k].cno
  {
    hide Rank, Dist, SinceEnd, Total, Intact, ForwardAnswer, Extends, Age;
    if spans == [] || period < offset / 2 {
      FreshProtects(cps, realtime.value, period, cno);
      assert AgeAt(cps, k, realtime.value) <= period;
    } else if period < offset {
      assert SpanOk(cps, spans[0]);
      ForwardNeverTooNew(cps, spans[0], offset - period, cno, k);
    }
  }

  // ----- runs -----

  /** The checkpoint is on the list, be it with another mode. */
  ghost predicate Has(cps: seq<Cpinfo>, cp: Cpinfo) {
    exists c :: 0 <= c < |cps| && TimeOf(cps[c]) == TimeOf(cp)
  }

  /** The kernel makes new checkpoints with new numbers, and deletes some of the others or changes their modes. */
  ghost predicate KernelStep(cps: seq<Cpinfo>, nextCno: nat, cps': seq<Cpinfo>, nextCno': nat) {
    && Ascending(cps') && nextCno <= nextCno' <= CNO_MAX
    && (forall i :: 0 <= i < |cps'| ==> (Has(cps, cps'[i]) || nextCno <= cps'[i].cno) && cps'[i].cno < nextCno')
    && (|cps'| > 0 ==> cps'[|cps'| - 1].cno == nextCno' - 1)
  }

  lemma {:induction false} MeetSurvives(cps: seq<Cpinfo>, nextCno: nat, cps': seq<Cpinfo>, nextCno': nat, newer: Cpspan,
                                        older: Cpspan)
    requires Ascending(cps) && KernelStep(cps, nextCno, cps', nextCno')
    requires older.end.cno < newer.start.cno < nextCno && Meet(cps, newer, older)
    ensures Meet(cps', newer, older)
  {
    WindowBound(cps', older.end.cno + 1, newer.start.cno);
    var a := Rank(cps', older.end.cno + 1);
    if a < Rank(cps', newer.start.cno) {
      RankAt(cps', older.end.cno + 1, a);
      RankAt(cps', newer.start.cno, a);
      var c :| 0 <= c < |cps| && TimeOf(cps[c]) == TimeOf(cps'[a]);
      RankAt(cps, older.end.cno + 1, c);
      RankAt(cps, newer.start.cno, c);
      assert false;
    }
  }

  lemma {:induction false} HistorySurvives(cps: seq<Cpinfo>, nextCno: nat, cps': seq<Cpinfo>, nextCno': nat,
                                           spans: seq<Cpspan>, elapsed: int)
    requires Ascending(cps) && KernelStep(cps, nextCno, cps', nextCno')
    requires HistoryOk(cps, spans, elapsed) && (spans != [] ==> spans[0].end.cno < nextCno)
    ensures HistoryOk(cps', spans, elapsed)
  {
    forall i | 0 <= i < |spans| ensures SpanOk(cps', spans[i]) {
      assert SpanOk(cps, spans[i]);
      assert i > 0 ==> After(spans[0], spans[i]) && SpanOk(cps, spans[0]);
      forall k, l | 0 <= k <= l < |cps'| && InSpan(spans[i], cps'[k]) && InSpan(spans[i], cps'[l])
        ensures NotLater(cps'[k], cps'[l]) && spans[i].start.time <= cps'[k].create <= spans[i].end.time
      {
        var a :| 0 <= a < |cps| && TimeOf(cps[a]) == TimeOf(cps'[k]);
        var b :| 0 <= b < |cps| && TimeOf(cps[b]) == TimeOf(cps'[l]);
        assert b < a ==> Older(cps[b], cps[a]);
        assert k < l ==> Older(cps'[k], cps'[l]);
        assert NotLater(cps[a], cps[b]);
      }
    }
    forall i, j | 0 <= i && i + 1 == j < |spans| ensures Meet(cps', spans[i], spans[j]) {
      assert Meet(cps, spans[i], spans[j]) && After(spans[i], spans[j]);
      assert SpanOk(cps, spans[i]) && SpanOk(cps, spans[0]);
      assert i > 0 ==> After(spans[0], spans[i]);
      MeetSurvives(cps, nextCno, cps', nextCno', spans[i], spans[j]);
    }
  }

  /** The kernel step deletes no checkpoint that the history covers. */
  ghost predicate KeepsRecorded(cps: seq<Cpinfo>, cps': seq<Cpinfo>, spans: seq<Cpspan>) {
    forall i :: 0 <= i < |cps| && spans != [] && spans[|spans| - 1].start.cno <= cps[i].cno <= spans[0].end.cno ==>
      Has(cps', cps[i])
  }

  /** Between two recorded numbers the list is the same before and after the step. */
  lemma {:induction false} ListedSurvives(cps: seq<Cpinfo>, nextCno: nat, cps': seq<Cpinfo>, nextCno': nat,
                                          spans: seq<Cpspan>, t: Cptime)
    requires Ascending(cps) && KernelStep(cps, nextCno, cps', nextCno')
    requires KeepsRecorded(cps, cps', spans) && spans != []
    requires spans[|spans| - 1].start.cno <= t.cno <= spans[0].end.cno
    requires Listed(cps, t)
    ensures Listed(cps', t)
  {
    var i := Rank(cps, t.cno);
    var j :| 0 <= j < |cps'| && TimeOf(cps'[j]) == TimeOf(cps[i]);
    RankOf(cps', j);
  }

  lemma {:induction false} IntactSurvives(cps: seq<Cpinfo>, nextCno: nat, cps': seq<Cpinfo>, nextCno': nat,
                                          spans: seq<Cpspan>)
    requires Ascending(cps) && KernelStep(cps, nextCno, cps', nextCno')
    requires SpansOk(cps, spans) && Intact(cps, spans) && (spans != [] ==> spans[0].end.cno < nextCno)
    requires KeepsRecorded(cps, cps', spans)
    ensures Intact(cps', spans)
  {
    hide Rank, Listed, KernelStep, Ascending, KeepsRecorded;
    forall i | 0 <= i < |spans|
      ensures spans[i].start.cno < nextCno && Listed(cps', spans[i].start) && Listed(cps', spans[i].end)
    {
      EndsWithin(cps, spans, i);
      ListedSurvives(cps, nextCno, cps', nextCno', spans, spans[i].start);
      ListedSurvives(cps, nextCno, cps', nextCno', spans, spans[i].end);
    }
  }

  /** What happens in a run: the kernel moves on, or the daemon asks. */
  datatype Event =
    | Kernel(cps: seq<Cpinfo>, nextCno: nat)
    | Ask(period: nat, realtime: Option<nat>, monotonic: Option<nat>)

  /** The kernel only takes kernel steps and the monotonic clock never goes back. */
  ghost predicate LegalRun(cps: seq<Cpinfo>, nextCno: nat, clock: nat, events: seq<Event>)
    decreases |events|
  {
    events == [] ||
    match events[0]
    case Kernel(cps', nextCno') => KernelStep(cps, nextCno, cps', nextCno') &&
      LegalRun(cps', nextCno', clock, events[1..])
    case Ask(_, _, monotonic) =>
      (monotonic.Some? ==> clock <= monotonic.value)
      && LegalRun(cps, nextCno, if monotonic.Some? then monotonic.value else clock, events[1..])
  }

  /** The kernel deletes nothing during the run. */
  ghost predicate NothingDeleted(cps: seq<Cpinfo>, events: seq<Event>)
    decreases |events|
  {
    events == [] ||
    match events[0]
    case Kernel(cps', _) => (forall i :: 0 <= i < |cps| ==> Has(cps', cps[i])) && NothingDeleted(cps', events[1..])
    case Ask(_, _, _) => NothingDeleted(cps, events[1..])
  }

  /** The kernel takes a step. */
  method MoveOn(mapper: Mapper, cps: seq<Cpinfo>, nextCno: nat)
    requires mapper.Valid() && KernelStep(mapper.nilfs.cps, mapper.nilfs.nextCno, cps, nextCno)
    modifies mapper.nilfs
    ensures mapper.Valid() && mapper.nilfs.cps == cps && mapper.nilfs.nextCno == nextCno
    ensures old(mapper.EndsKept()) &&
            (forall i :: 0 <= i < |old(mapper.nilfs.cps)| ==> Has(cps, old(mapper.nilfs.cps)[i])) ==>
              mapper.EndsKept()
  {
    hide SpansOk, Intact, Total;
    var nilfs := mapper.nilfs;
    HistorySurvives(nilfs.cps, nilfs.nextCno, cps, nextCno, mapper.cphist, mapper.elapsed);
    if Intact(nilfs.cps, mapper.cphist) && KeepsRecorded(nilfs.cps, cps, mapper.cphist) {
      IntactSurvives(nilfs.cps, nilfs.nextCno, cps, nextCno, mapper.cphist);
    }
    nilfs.cps, nilfs.nextCno := cps, nextCno;
  }

  /** Through the run the two clocks keep their difference, and no checkpoint is from the future. */
  ghost predicate TimelyRun(cps: seq<Cpinfo>, difference: int, events: seq<Event>)
    decreases |events|
  {
    events == [] ||
    match events[0]
    case Kernel(cps', _) => TimelyRun(cps', difference, events[1..])
    case Ask(_, realtime, monotonic) =>
      && (monotonic.Some? ==> InTime(cps, difference, realtime, monotonic.value))
      && TimelyRun(cps, difference, events[1..])
  }

  /** There is an answer or a failure for each question, and no answer gives up a checkpoint younger than the period. */
  ghost predicate AllProtect(cps: seq<Cpinfo>, difference: int, events: seq<Event>, answers: seq<Option<nat>>)
    decreases |events|
  {
    if events == [] then answers == []
    else match events[0]
      case Kernel(cps', _) => AllProtect(cps', difference, events[1..], answers)
      case Ask(period, _, monotonic) =>
        && answers != []
        && (answers[0].Some? && period > 0 ==>
              monotonic.Some? && Protects(cps, difference + monotonic.value, period - 1, answers[0].value))
        && AllProtect(cps, difference, events[1..], answers[1..])
  }

  /**
   Over any run of kernel steps and calls the history stays sound and its elapsed time exact, so every
   answer separates the recorded checkpoints as it should.  As long as the kernel deletes nothing the
   history stays intact; if the clocks go together as well, then every answer of the run protects each
   checkpoint that is younger than the period at that time.
   */
  method Run(mapper: Mapper, events: seq<Event>, ghost clock: nat, ghost difference: int)
    returns (answers: seq<Option<nat>>)
    requires mapper.Valid() && mapper.baseClock <= clock
    requires LegalRun(mapper.nilfs.cps, mapper.nilfs.nextCno, clock, events)
    modifies mapper, mapper.nilfs
    ensures mapper.Valid()
    ensures old(mapper.EndsKept() && NothingDeleted(mapper.nilfs.cps, events)) ==> mapper.EndsKept()
    ensures old(mapper.InStep(difference) && TimelyRun(mapper.nilfs.cps, difference, events)) ==>
            mapper.InStep(difference)
    ensures old(mapper.EndsKept() && NothingDeleted(mapper.nilfs.cps, events)) &&
            old(mapper.InStep(difference) && TimelyRun(mapper.nilfs.cps, difference, events)) ==>
              AllProtect(old(mapper.nilfs.cps), difference, events, answers)
    decreases |events|
  {
    hide Protects, Mapper.Valid, Mapper.EndsKept, KernelStep;
    answers := [];
    if events != [] {
      match events[0] {
        case Kernel(cps, nextCno) =>
          MoveOn(mapper, cps, nextCno);
          answers := Run(mapper, events[1..], clock, difference);
        case Ask(period, realtime, monotonic) =>
          var cno: Option<nat> := OneAnswer(mapper, period, realtime, monotonic, difference);
          var more := Run(mapper, events[1..], if monotonic.Some? then monotonic.value else clock, difference);
          answers := [cno] + more;
          assert answers[1..] == more;
      }
    }
  }

  /** One question of a run. */
  method OneAnswer(mapper: Mapper, period: nat, realtime: Option<nat>, monotonic: Option<nat>, ghost difference: int)
    returns (cno: Option<nat>)
    requires mapper.Valid()
    requires monotonic.Some? ==> mapper.baseClock <= monotonic.value
    modifies mapper, mapper.nilfs`mincno
    ensures mapper.Valid() && (old(mapper.EndsKept()) ==> mapper.EndsKept())
    ensures mapper.baseClock == old(mapper.baseClock) || monotonic == Some(mapper.baseClock)
    ensures old(mapper.InStep(difference)) &&
            (monotonic.Some? ==> InTime(mapper.nilfs.cps, difference, realtime, monotonic.value)) ==>
              mapper.InStep(difference)
    ensures cno.Some? && period > 0 ==> monotonic.Some?
    ensures cno.Some? && period > 0 && old(mapper.EndsKept() && mapper.InStep(difference)) &&
            InTime(mapper.nilfs.cps, difference, realtime, monotonic.value) ==>
              Protects(mapper.nilfs.cps, difference + monotonic.value, period - 1, cno.value)
  {
    hide Protects, Intact, HistoryOk, ForwardAnswer, Splits, ReachesBack, Extends, WithinAnswer;
    ghost var first := mapper.cphist == [];
    cno := mapper.TrackBack(period, realtime, monotonic);
    if cno.Some? && period > 0 && first && InTime(mapper.nilfs.cps, difference, realtime, monotonic.value) {
      FreshProtects(mapper.nilfs.cps, realtime.value, period, cno.value);
      ProtectsLess(mapper.nilfs.cps, realtime.value, period, cno.value);
    }
  }
}
