/**
 The callbacks with which the reverse mapper scans checkpoints, and what such scans record and
 find.
 */
module CpScan {
  import opened Checkpoints
  import opened CheckpointWalk
  import opened Spans

  // ----- the scan callbacks -----

  datatype ScanState = ScanInit | ScanNormal | ScanDone

  datatype ScanContext = ScanContext(
    cphist: seq<Cpspan>,   // the record under construction
    elapsed: int,          // and its elapsed time
    index: nat,            // index of the current span
    state: ScanState,
    time: nat,
    period: nat,
    minInclCno: nat)

  /** nilfs_cpinfo_scan_backward */
  function ScanBackward(cp: Cpinfo, ctx: ScanContext): (int, ScanContext) {
    if ctx.state.ScanInit? then
      var started := ctx.(cphist := ctx.cphist + [SingleSpan(cp)], elapsed := 0);
      var age := if ctx.time > cp.create then ctx.time - cp.create else 0;
      if ctx.period < age then (2, started.(state := ScanDone))
      else (1, started.(state := ScanNormal, period := ctx.period - age, minInclCno := cp.cno))
    else if ctx.index >= |ctx.cphist| || ctx.state.ScanDone? then (-1, ctx)
    else
      var sp := ctx.cphist[ctx.index];
      if cp.create == sp.start.time then
        var same := Cpspan(TimeOf(cp), sp.end, sp.approxNcp + 1);
        (1, ctx.(cphist := ctx.cphist[ctx.index := same], minInclCno := cp.cno))
      else
        var elapsed := ctx.elapsed + GapOfSpans(cp.create, sp.start.time);
        var next :=
          if cp.create > sp.start.time || sp.approxNcp >= NCP_PER_SPAN then
            ctx.(cphist := ctx.cphist + [SingleSpan(cp)], index := ctx.index + 1, elapsed := elapsed)
          else
            ctx.(cphist := ctx.cphist[ctx.index := Cpspan(TimeOf(cp), sp.end, sp.approxNcp + 1)], elapsed := elapsed);
        if elapsed > ctx.period then (2, next.(state := ScanDone))
        else (1, next.(minInclCno := cp.cno))
  }

  /** nilfs_cpinfo_scan_forward */
  function ScanForward(cp: Cpinfo, ctx: ScanContext): (int, ScanContext) {
    if ctx.cphist == [] || !ctx.state.ScanNormal? then (-1, ctx)
    else
      var sp := ctx.cphist[0];
      if cp.create == sp.end.time then
        (1, ctx.(cphist := ctx.cphist[0 := Cpspan(sp.start, TimeOf(cp), sp.approxNcp + 1)]))
      else
        var elapsed := ctx.elapsed + GapOfSpans(sp.end.time, cp.create);
        var next :=
          if cp.create < sp.end.time || sp.approxNcp >= NCP_PER_SPAN then
            ctx.(cphist := [SingleSpan(cp)] + ctx.cphist, index := ctx.index + 1, elapsed := elapsed)
          else
            ctx.(cphist := ctx.cphist[0 := Cpspan(sp.start, TimeOf(cp), sp.approxNcp + 1)], elapsed := elapsed);
        if elapsed >= ctx.period then (2, next.(state := ScanDone, minInclCno := cp.cno))
        else (1, next)
  }

  datatype FindContext = FindContext(time: nat, endCno: nat, minIncl: Cptime, maxExcl: Cptime, nskips: nat)

  /** nilfs_cpinfo_find */
  function Find(cp: Cpinfo, ctx: FindContext): (int, FindContext) {
    if cp.cno > ctx.endCno then (2, ctx)
    else if cp.create >= ctx.time then (2, ctx.(minIncl := TimeOf(cp)))
    else (0, ctx.(maxExcl := TimeOf(cp), nskips := ctx.nskips + 1))
  }

  // ----- what a backward scan records and finds -----

  /** The context records a sound history whose oldest checkpoint has index p. */
  ghost predicate Recording(cps: seq<Cpinfo>, p: nat, ctx: ScanContext) {
    && ctx.cphist != [] && ctx.index == |ctx.cphist| - 1
    && HistoryOk(cps, ctx.cphist, ctx.elapsed)
    && p == Bottom(cps, ctx.cphist)
  }

  lemma {:induction false} ScanBackwardStep(cps: seq<Cpinfo>, p: nat, ctx: ScanContext)
    requires Ascending(cps) && 0 < p && Recording(cps, p, ctx) && ctx.state.ScanNormal?
    ensures var (verdict, next) := ScanBackward(cps[p - 1], ctx);
            && Recording(cps, p - 1, next)
            && RecordedBelow(cps, ctx.cphist, p, next.cphist)
            && next.period == ctx.period
            && (if next.elapsed > ctx.period && next.elapsed != ctx.elapsed
                then verdict == 2 && next.state.ScanDone? && next.minInclCno == ctx.minInclCno
                else verdict == 1 && next.state.ScanNormal? && next.minInclCno == cps[p - 1].cno)
  {
    hide SpansOk, Intact, Rank, Total;
    var sp := ctx.cphist[ctx.index];
    if cps[p - 1].create <= sp.start.time {
      GrowOldest(cps, ctx.cphist, p);
    }
    AppendOldest(cps, ctx.cphist, p);
  }

  /** Whatever the kernel has kept of the recorded checkpoints, a backward scan keeps the record sound. */
  lemma {:induction false} ScanBackwardKeeps(cps: seq<Cpinfo>, lo: nat, p: nat, rest: nat, ctx: ScanContext)
    requires Ascending(cps) && lo <= p <= |cps| && (rest >= 1 || lo == p)
    requires Recording(cps, p, ctx) && ctx.state.ScanNormal?
    ensures var w := WalkDown(cps, lo, p, rest, ScanBackward, ctx);
            && w.ctx.cphist != [] && HistoryOk(cps, w.ctx.cphist, w.ctx.elapsed)
            && w.ctx.cphist[0].end == ctx.cphist[0].end
            && (Intact(cps, ctx.cphist) ==> Intact(cps, w.ctx.cphist))
            && w.ctx.state != ScanInit
            && (w.Ended? ==> w.ok)
    decreases p
  {
    hide SpansOk, Intact, Rank, Total, ScanBackward;
    if lo < p {
      ScanBackwardStep(cps, p, ctx);
      match Visit(cps[p - 1], rest, ScanBackward, ctx)
      case Going(r, next) => ScanBackwardKeeps(cps, lo, p - 1, r, next);
      case Ended(_, _) =>
    }
  }

  /** A backward scan over all of the older checkpoints finds the oldest one within the period. */
  lemma {:induction false} ScanBackwardFinds(cps: seq<Cpinfo>, top: nat, p: nat, rest: nat, ctx: ScanContext)
    returns (r: nat)
    requires Ascending(cps) && p <= top < |cps| && rest >= p
    requires Recording(cps, p, ctx) && ctx.state.ScanNormal?
    requires Intact(cps, ctx.cphist) && Top(cps, ctx.cphist) == top
    requires ctx.elapsed <= ctx.period && ctx.minInclCno == cps[p].cno
    ensures var w := WalkDown(cps, 0, p, rest, ScanBackward, ctx);
            OldestWithin(cps, top, ctx.period, r) && w.ctx.minInclCno == cps[r].cno
    decreases p
  {
    hide SpansOk, Rank, Total, ScanBackward;
    TotalIsDist(cps, ctx.cphist, |ctx.cphist|);
    if p == 0 {
      r := 0;
    } else {
      ScanBackwardStep(cps, p, ctx);
      var (_, next) := ScanBackward(cps[p - 1], ctx);
      TotalIsDist(cps, next.cphist, |next.cphist|);
      match Visit(cps[p - 1], rest, ScanBackward, ctx)
      case Going(rest', c) =>
        r := ScanBackwardFinds(cps, top, p - 1, rest', c);
      case Ended(_, _) =>
        r := if next.state.ScanDone? then p else p - 1;
        OldestByNeighbour(cps, top, ctx.period, r);
    }
  }

  /**
   Unless the time stands still, a full span takes in no more checkpoints; one that is not full does, in
   order of time.
   */
  lemma {:induction false} SpansFill(cp: Cpinfo, ctx: ScanContext)
    requires ctx.cphist != [] && ctx.index == |ctx.cphist| - 1 && ctx.state.ScanNormal?
    ensures var sp, (_, next) := ctx.cphist[ctx.index], ScanBackward(cp, ctx);
            cp.create != sp.start.time ==>
              (|next.cphist| == |ctx.cphist| <==> cp.create < sp.start.time && sp.approxNcp < 4096)
    ensures var sp, (_, next) := ctx.cphist[0], ScanForward(cp, ctx);
            cp.create != sp.end.time ==>
              (|next.cphist| == |ctx.cphist| <==> sp.end.time < cp.create && sp.approxNcp < 4096)
  {
  }

  /** Recording the checkpoint that exceeds the budget: the start of the history before it splits the new one. */
  lemma {:induction false} OldestAdded(cps: seq<Cpinfo>, spans: seq<Cpspan>, p: nat, grown: seq<Cpspan>, budget: int)
    requires Ascending(cps) && SpansOk(cps, spans) && spans != [] && 0 < p == Bottom(cps, spans)
    requires RecordedBelow(cps, spans, p, grown)
    requires var last := spans[|spans| - 1];
             || grown == spans + [SingleSpan(cps[p - 1])]
             || (cps[p - 1].create <= last.start.time
                 && grown == spans[|spans| - 1 := Cpspan(TimeOf(cps[p - 1]), last.end, last.approxNcp + 1)])
    requires Total(spans, |spans|) <= budget < Total(grown, |grown|)
    ensures Splits(cps, grown, budget, spans[|spans| - 1].start.cno)
  {
    hide Total, SpansOk, Intact, Rank;
    var start := spans[|spans| - 1].start;
    AllWithin(cps, spans, budget);
    RankAt(cps, start.cno, p - 1);
    forall j, k | 0 <= j < |grown| && 0 <= k < |cps| && InSpan(grown[j], cps[k])
      ensures cps[k].cno < start.cno <==> Age(grown, j, cps[k]) > budget
    {
      if cps[k].cno < start.cno {
        AddedIs(cps, spans, p, grown, j, k);
      } else {
        AgeKept(cps, spans, p, grown, j, k);
      }
    }
  }

  /** A recorded checkpoint below the old start is the one that was added. */
  lemma {:induction false} AddedIs(cps: seq<Cpinfo>, spans: seq<Cpspan>, p: nat, grown: seq<Cpspan>, j: nat, k: nat)
    requires Ascending(cps) && SpansOk(cps, spans) && spans != [] && 0 < p == Bottom(cps, spans)
    requires RecordedBelow(cps, spans, p, grown) && |grown| >= |spans| && grown[..|spans| - 1] == spans[..|spans| - 1]
    requires j < |grown| && k < |cps| && InSpan(grown[j], cps[k]) && cps[k].cno < spans[|spans| - 1].start.cno
    requires |grown| == |spans| || (|grown| == |spans| + 1 && grown[|spans| - 1] == spans[|spans| - 1])
    ensures j == |grown| - 1 && Age(grown, j, cps[k]) == Total(grown, |grown|)
  {
    hide Total, Intact, Rank, SpanOk;
    var last := |grown| - 1;
    RankAt(cps, spans[|spans| - 1].start.cno, k);
    InOrder(cps, grown[last]);
    InOrder(cps, spans[|spans| - 1]);
    assert j < |spans| - 1 ==> grown[..|spans| - 1][j] == spans[j] && After(spans[j], spans[|spans| - 1]);
    assert k < p - 1 ==> Older(cps[k], cps[p - 1]);
  }

  /** The age of a checkpoint that was recorded before stays the same. */
  lemma {:induction false} AgeKept(cps: seq<Cpinfo>, spans: seq<Cpspan>, p: nat, grown: seq<Cpspan>, j: nat, k: nat)
    requires Ascending(cps) && SpansOk(cps, spans) && spans != [] && 0 < p == Bottom(cps, spans)
    requires RecordedBelow(cps, spans, p, grown)
    requires var last := spans[|spans| - 1];
             || grown == spans + [SingleSpan(cps[p - 1])]
             || (cps[p - 1].create <= last.start.time
                 && grown == spans[|spans| - 1 := Cpspan(TimeOf(cps[p - 1]), last.end, last.approxNcp + 1)])
    requires j < |grown| && k < |cps| && InSpan(grown[j], cps[k]) && cps[k].cno >= spans[|spans| - 1].start.cno
    ensures j < |spans| && InSpan(spans[j], cps[k]) && Age(grown, j, cps[k]) == Age(spans, j, cps[k])
  {
    hide Intact, SpanOk, Total;
    RankAt(cps, spans[|spans| - 1].start.cno, p - 1);
    if j < |spans| - 1 || |grown| > |spans| {
      assert j < |spans|;
      TotalPrefix(spans, grown, j + 1);
    }
  }

  lemma {:induction false} ScanBackwardShape(cps: seq<Cpinfo>, p: nat, ctx: ScanContext)
    requires 0 < p <= |cps| && ctx.cphist != [] && ctx.index == |ctx.cphist| - 1 && ctx.state.ScanNormal?
    requires var (_, next) := ScanBackward(cps[p - 1], ctx); next.elapsed > ctx.elapsed
    ensures var last := ctx.cphist[ctx.index];
            var (_, next) := ScanBackward(cps[p - 1], ctx);
            || next.cphist == ctx.cphist + [SingleSpan(cps[p - 1])]
            || (cps[p - 1].create <= last.start.time
                && next.cphist == ctx.cphist[ctx.index := Cpspan(TimeOf(cps[p - 1]), last.end, last.approxNcp + 1)])
  {
  }

  /**
   A backward scan over all of the older checkpoints, from any sound record: its answer separates the
   recorded checkpoints within the period from those that are too old, and it stops only when it has
   recorded one that is too old or there is none left.
   */
  lemma {:induction false} ScanBackwardSplits(cps: seq<Cpinfo>, p: nat, rest: nat, ctx: ScanContext)
    requires Ascending(cps) && p <= |cps| && rest >= p && (rest >= 1 || p == 0)
    requires Recording(cps, p, ctx) && ctx.state.ScanNormal?
    requires ctx.elapsed <= ctx.period && ctx.minInclCno == ctx.cphist[ctx.index].start.cno
    ensures var w := WalkDown(cps, 0, p, rest, ScanBackward, ctx);
            w.ctx.cphist != [] && ReachesBack(cps, w.ctx.cphist, w.ctx.elapsed, ctx.period, w.ctx.minInclCno)
    decreases p
  {
    hide SpansOk, Rank, Total, ScanBackward, Splits, Intact;
    AllWithin(cps, ctx.cphist, ctx.period);
    if p > 0 {
      ScanBackwardStep(cps, p, ctx);
      var (_, next) := ScanBackward(cps[p - 1], ctx);
      if next.state.ScanDone? {
        ScanBackwardShape(cps, p, ctx);
        OldestAdded(cps, ctx.cphist, p, next.cphist, ctx.period);
      } else {
        AllWithin(cps, next.cphist, ctx.period);
        if rest > 1 {
          ScanBackwardSplits(cps, p - 1, rest - 1, next);
        }
      }
    }
  }

  /** The longer history has the spans of the shorter one; only the oldest of these may start earlier. */
  ghost predicate Extends(spans: seq<Cpspan>, longer: seq<Cpspan>) {
    && 0 < |spans| <= |longer|
    && (forall i :: 0 <= i < |spans| - 1 ==> longer[i] == spans[i])
    && longer[|spans| - 1].end == spans[|spans| - 1].end
  }

  lemma {:induction false} ScanBackwardExtends(cps: seq<Cpinfo>, lo: nat, p: nat, rest: nat, ctx: ScanContext)
    requires lo <= p <= |cps| && (rest >= 1 || lo == p)
    requires ctx.cphist != [] && ctx.index == |ctx.cphist| - 1 && ctx.state.ScanNormal?
    ensures Extends(ctx.cphist, WalkDown(cps, lo, p, rest, ScanBackward, ctx).ctx.cphist)
    decreases p
  {
    if lo < p {
      match Visit(cps[p - 1], rest, ScanBackward, ctx)
      case Going(r, next) => ScanBackwardExtends(cps, lo, p - 1, r, next);
      case Ended(_, _) =>
    }
  }

  /** The number splits the history at the budget, and the history goes back far enough to know. */
  ghost predicate ReachesBack(cps: seq<Cpinfo>, spans: seq<Cpspan>, elapsed: int, budget: int, cno: nat)
    requires spans != []
  {
    Splits(cps, spans, budget, cno) && (elapsed > budget || Bottom(cps, spans) == 0)
  }

  // ----- what a forward scan records and finds -----

  ghost predicate RecordingUp(cps: seq<Cpinfo>, p: nat, ctx: ScanContext) {
    && ctx.cphist != [] && HistoryOk(cps, ctx.cphist, ctx.elapsed)
    && p == Rank(cps, ctx.cphist[0].end.cno + 1)
  }

  lemma {:induction false} ScanForwardStep(cps: seq<Cpinfo>, p: nat, ctx: ScanContext)
    requires Ascending(cps) && p < |cps| && RecordingUp(cps, p, ctx) && ctx.state.ScanNormal?
    ensures var (verdict, next) := ScanForward(cps[p], ctx);
            && RecordingUp(cps, p + 1, next)
            && RecordedAbove(cps, ctx.cphist, p, next.cphist)
            && next.period == ctx.period
            && (if next.elapsed >= ctx.period && cps[p].create != ctx.cphist[0].end.time
                then verdict == 2 && next.state.ScanDone? && next.minInclCno == cps[p].cno
                else verdict == 1 && next.state.ScanNormal? && next.minInclCno == ctx.minInclCno)
  {
    hide SpansOk, Intact, Rank, Total;
    if cps[p].create >= ctx.cphist[0].end.time {
      GrowNewest(cps, ctx.cphist, p);
    }
    InsertNewest(cps, ctx.cphist, p);
  }

  /** The time from the end of a span to a checkpoint after it, the first one after it being cps[lo]. */
  function SinceEnd(cps: seq<Cpinfo>, sp: Cpspan, lo: nat, q: nat): nat
    requires lo <= q < |cps|
  {
    GapOfSpans(sp.end.time, cps[lo].create) + Dist(cps, lo, q)
  }

  /** The recorded time of what comes before a checkpoint after the span. */
  function TimeBefore(cps: seq<Cpinfo>, sp: Cpspan, lo: nat, q: nat): nat
    requires lo <= q < |cps|
  {
    if q == lo then sp.end.time else cps[q - 1].create
  }

  /**
   The forward scan stops at the first checkpoint that moves the clock and reaches the target from the
   start of the span.
   */
  ghost predicate Reaches(cps: seq<Cpinfo>, sp: Cpspan, lo: nat, target: nat, q: nat)
    requires lo <= q < |cps|
  {
    cps[q].create != TimeBefore(cps, sp, lo, q) && Width(sp) + SinceEnd(cps, sp, lo, q) >= target
  }

  lemma {:induction false} ScanForwardWalk(cps: seq<Cpinfo>, lo: nat, hi: nat, rest: nat, ctx: ScanContext)
    requires Ascending(cps) && lo <= hi <= |cps| && (rest >= 1 || lo == hi)
    requires RecordingUp(cps, lo, ctx) && ctx.state.ScanNormal?
    ensures var w := WalkUp(cps, lo, hi, rest, ScanForward, ctx);
            && w.ctx.cphist != [] && HistoryOk(cps, w.ctx.cphist, w.ctx.elapsed)
            && w.ctx.cphist[|w.ctx.cphist| - 1].start == ctx.cphist[|ctx.cphist| - 1].start
            && (w.ctx.cphist[0].end == ctx.cphist[0].end ||
                exists k :: lo <= k < hi && w.ctx.cphist[0].end == TimeOf(cps[k]))
            && w.ctx.period == ctx.period
            && (Intact(cps, ctx.cphist) ==> Intact(cps, w.ctx.cphist))
            && (w.Going? ==> w.rest + (hi - lo) >= rest && w.ctx.state.ScanNormal? && RecordingUp(cps, hi, w.ctx))
            && (w.Ended? ==> w.ok && (w.ctx.state.ScanDone? || (w.ctx.state.ScanNormal? && hi - lo >= rest)))
    decreases hi
  {
    hide SpansOk, Intact, Rank, Total, ScanForward;
    if lo < hi {
      ScanForwardWalk(cps, lo, hi - 1, rest, ctx);
      var w := WalkUp(cps, lo, hi - 1, rest, ScanForward, ctx);
      if w.Going? {
        ScanForwardStep(cps, hi - 1, w.ctx);
      }
    }
  }

  /** What the forward scan over cps[lo..hi] has found: the first checkpoint that reaches, if any. */
  ghost predicate FoundForward(cps: seq<Cpinfo>, sp: Cpspan, lo: nat, hi: nat, ctx0: ScanContext, ctx: ScanContext)
    requires lo <= hi <= |cps|
  {
    if ctx.state.ScanDone? then
      exists k :: lo <= k < hi && ctx.minInclCno == cps[k].cno && Reaches(cps, sp, lo, ctx0.period, k)
                  && forall q :: lo <= q < k ==> !Reaches(cps, sp, lo, ctx0.period, q)
    else
      ctx.minInclCno == ctx0.minInclCno && forall q :: lo <= q < hi ==> !Reaches(cps, sp, lo, ctx0.period, q)
  }

  lemma {:induction false} ScanForwardFinds(cps: seq<Cpinfo>, lo: nat, hi: nat, rest: nat, ctx: ScanContext)
    requires Ascending(cps) && lo <= hi <= |cps| && rest >= hi - lo && (rest >= 1 || lo == hi)
    requires RecordingUp(cps, lo, ctx) && ctx.state.ScanNormal? && |ctx.cphist| == 1
    ensures var w, sp := WalkUp(cps, lo, hi, rest, ScanForward, ctx), ctx.cphist[0];
            && FoundForward(cps, sp, lo, hi, ctx, w.ctx)
            && (w.Going? && lo < hi ==>
                  w.ctx.cphist != [] && w.ctx.cphist[0].end == TimeOf(cps[hi - 1])
                  && w.ctx.elapsed == Width(sp) + SinceEnd(cps, sp, lo, hi - 1))
    decreases hi
  {
    hide SpansOk, Rank, ScanForward, Ascending, Intact;
    var sp := ctx.cphist[0];
    assert ctx.elapsed == Width(sp);
    hide Total;
    if lo < hi {
      ScanForwardFinds(cps, lo, hi - 1, rest, ctx);
      ScanForwardWalk(cps, lo, hi - 1, rest, ctx);
      var w := WalkUp(cps, lo, hi - 1, rest, ScanForward, ctx);
      if w.Going? {
        ScanForwardStep(cps, hi - 1, w.ctx);
        if lo < hi - 1 {
          DistSplit(cps, lo, hi - 2, hi - 1);
          assert Dist(cps, hi - 2, hi - 1) == GapOfSpans(cps[hi - 2].create, cps[hi - 1].create);
        }
      }
    }
  }

  // ----- what the search inside a span finds -----

  /** The search passes over the checkpoints from `lo` that are within the span and too early. */
  ghost predicate Passed(cps: seq<Cpinfo>, ctx: FindContext, q: nat)
    requires q < |cps|
  {
    cps[q].cno <= ctx.endCno && cps[q].create < ctx.time
  }

  lemma {:induction false} FindWalk(cps: seq<Cpinfo>, lo: nat, hi: nat, rest: nat, ctx: FindContext) returns (k: nat)
    requires lo <= hi <= |cps| && (rest >= 1 || lo == hi)
    ensures lo <= k <= hi
    ensures forall q :: lo <= q < k ==> Passed(cps, ctx, q)
    ensures var w := WalkUp(cps, lo, hi, rest, Find, ctx);
            && (w.Going? <==> k == hi)
            && (w.Ended? ==> w.ok)
            && (k < hi ==> !Passed(cps, ctx, k))
            && w.ctx == FindContext(ctx.time, ctx.endCno,
                                    if k < hi && cps[k].cno <= ctx.endCno then TimeOf(cps[k]) else ctx.minIncl,
                                    if k > lo then TimeOf(cps[k - 1]) else ctx.maxExcl, ctx.nskips + (k - lo))
    decreases hi
  {
    k := hi;
    if lo < hi {
      k := FindWalk(cps, lo, hi - 1, rest, ctx);
      var w := WalkUp(cps, lo, hi - 1, rest, Find, ctx);
      if w.Going? && Passed(cps, ctx, hi - 1) {
        k := hi;
      }
    }
  }

  /** cps[k] is the oldest checkpoint at least `period` away from cps[bottom]. */
  ghost predicate FirstAtLeast(cps: seq<Cpinfo>, bottom: nat, period: nat, k: nat) {
    && bottom < k < |cps|
    && Dist(cps, bottom, k) >= period
    && forall q :: bottom <= q < k ==> Dist(cps, bottom, q) < period
  }

  lemma {:induction false} FirstByNeighbour(cps: seq<Cpinfo>, bottom: nat, period: nat, k: nat)
    requires bottom < k < |cps|
    requires Dist(cps, bottom, k - 1) < period <= Dist(cps, bottom, k)
    ensures FirstAtLeast(cps, bottom, period, k)
  {
    forall q | bottom <= q < k ensures Dist(cps, bottom, q) < period {
      DistSplit(cps, bottom, q, k - 1);
    }
  }

  /** Distance from the oldest end of the history up to the start of a recorded span. */
  lemma {:induction false} SpanStart(cps: seq<Cpinfo>, spans: seq<Cpspan>, index: nat)
    requires Ascending(cps) && SpansOk(cps, spans) && Intact(cps, spans) && index < |spans|
    ensures var bottom, a := Bottom(cps, spans), Rank(cps, spans[index].start.cno);
            && bottom <= a < |cps|
            && Dist(cps, bottom, a) == Total(spans, |spans|) - Total(spans, index + 1)
  {
    hide Total, Intact, Dist, Rank;
    var last := |spans| - 1;
    TotalIsDist(cps, spans, |spans|);
    TotalIsDist(cps, spans, index + 1);
    assert SpanOk(cps, spans[last]);
    assert index < last ==> After(spans[index], spans[last]);
    WindowBound(cps, spans[last].start.cno, spans[index].start.cno);
    DistSplit(cps, Bottom(cps, spans), Rank(cps, spans[index].start.cno), Top(cps, spans));
  }

  /** The target falls between a span and the next newer one: the newer span's start is the answer. */
  lemma {:induction false} SearchInGap(cps: seq<Cpinfo>, spans: seq<Cpspan>, index: nat, period: nat)
    requires Ascending(cps) && SpansOk(cps, spans) && Intact(cps, spans) && 0 < index < |spans|
    requires var delta := Total(spans, |spans|) - Total(spans, index + 1);
             var width, gap := Width(spans[index]), GapOfSpans(spans[index].end.time, spans[index - 1].start.time);
             delta + width < period <= delta + width + gap
    ensures var k := Rank(cps, spans[index - 1].start.cno);
            FirstAtLeast(cps, Bottom(cps, spans), period, k) && cps[k].cno == spans[index - 1].start.cno
  {
    hide Total, Dist;
    SpanStart(cps, spans, index);
    SpanStart(cps, spans, index - 1);
    WidthIsDist(cps, spans[index]);
    assert Listed(cps, spans[index - 1].start);
    MeetAtNeighbours(cps, spans, index);
    var k := Rank(cps, spans[index - 1].start.cno);
    DistSplit(cps, Bottom(cps, spans), Rank(cps, spans[index].start.cno), k - 1);
    TotalStep(spans, index);
    FirstByNeighbour(cps, Bottom(cps, spans), period, k);
  }

  /** The target falls inside a span: the first checkpoint late enough is the answer. */
  lemma {:induction false} SearchInSpan(cps: seq<Cpinfo>, spans: seq<Cpspan>, index: nat, period: nat, ctx: FindContext,
                                        k: nat)
    requires Ascending(cps) && SpansOk(cps, spans) && Intact(cps, spans) && index < |spans|
    requires var delta := Total(spans, |spans|) - Total(spans, index + 1);
             delta < period <= delta + Width(spans[index]) && ctx.time == spans[index].start.time + (period - delta)
    requires ctx.endCno == spans[index].end.cno
    requires Rank(cps, spans[index].start.cno + 1) <= k <= |cps|
    requires forall q :: Rank(cps, spans[index].start.cno + 1) <= q < k ==> Passed(cps, ctx, q)
    requires k < |cps| ==> !Passed(cps, ctx, k)
    ensures k < |cps| && InSpan(spans[index], cps[k]) && cps[k].create >= ctx.time
    ensures FirstAtLeast(cps, Bottom(cps, spans), period, k)
  {
    hide Total, Dist;
    var sp := spans[index];
    SpanStart(cps, spans, index);
    WidthIsDist(cps, sp);
    var a, b := Rank(cps, sp.start.cno), Rank(cps, sp.end.cno);
    assert Listed(cps, sp.start) && Listed(cps, sp.end);
    RankOf(cps, a);
    assert !Passed(cps, ctx, b);
    assert a < k <= b;
    assert k < b ==> Older(cps[k], cps[b]);
    assert Older(cps[a], cps[k]);
    var bottom := Bottom(cps, spans);
    forall q | a <= q <= k ensures Dist(cps, bottom, q) == Dist(cps, bottom, a) + cps[q].create - sp.start.time {
      DistSplit(cps, bottom, a, q);
      RisingDist(cps, a, q);
    }
    assert cps[k - 1].create < ctx.time by {
      assert a < k - 1 ==> Passed(cps, ctx, k - 1);
    }
    assert Dist(cps, bottom, k - 1) < period <= Dist(cps, bottom, k);
    FirstByNeighbour(cps, bottom, period, k);
  }

  /** A checkpoint far enough from the oldest recorded one is near enough to the newest. */
  lemma {:induction false} FirstIsOldest(cps: seq<Cpinfo>, bottom: nat, top: nat, budget: nat, k: nat)
    requires bottom <= top < |cps| && budget < Dist(cps, bottom, top)
    requires FirstAtLeast(cps, bottom, Dist(cps, bottom, top) - budget, k)
    ensures OldestWithin(cps, top, budget, k)
  {
    assert k <= top;
    DistSplit(cps, bottom, k, top);
    DistSplit(cps, bottom, k - 1, top);
    OldestByNeighbour(cps, top, budget, k);
  }

  // ----- answers -----

  /** The right answer when the newest recorded checkpoint is cps[top], `offset` before now. */
  ghost predicate WithinAnswer(cps: seq<Cpinfo>, top: nat, offset: nat, period: nat, cno: nat) {
    if period < offset then cno == CNO_MAX
    else exists r: nat :: OldestWithin(cps, top, period - offset, r) && cno == cps[r].cno
  }

  /** The right answer of a fresh scan at the clock time `realtime`. */
  ghost predicate FreshAnswer(cps: seq<Cpinfo>, realtime: nat, period: nat, cno: nat) {
    if cps == [] then cno == CNO_MAX
    else
      var newest := cps[|cps| - 1].create;
      WithinAnswer(cps, |cps| - 1, if realtime > newest then realtime - newest else 0, period, cno)
  }

  /** The first scan: what it records, and what it finds when it is not cut short. */
  lemma {:induction false} ScanFromInit(cps: seq<Cpinfo>, stop: nat, ctx: ScanContext)
    requires Ascending(cps) && stop <= |cps|
    requires ctx == ScanContext([], 0, 0, ScanInit, ctx.time, ctx.period, CNO_MAX)
    ensures var w := WalkDown(cps, stop, |cps|, |cps|, ScanBackward, ctx);
            && HistoryOk(cps, w.ctx.cphist, w.ctx.elapsed) && Intact(cps, w.ctx.cphist)
            && (w.Ended? ==> w.ok)
            && (w.ctx.state.ScanInit? <==> stop == |cps|)
            && (w.ctx.state.ScanInit? ==> w.ctx == ctx)
            && (!w.ctx.state.ScanInit? ==> w.ctx.cphist != [] && w.ctx.cphist[0].end == TimeOf(cps[|cps| - 1]))
            && (stop == 0 ==> FreshAnswer(cps, ctx.time, ctx.period, w.ctx.minInclCno))
  {
    if stop < |cps| {
      hide Total, SpansOk, Intact, Rank, ScanBackward;
      FirstVisit(cps, ctx);
      var top := |cps| - 1;
      match Visit(cps[top], |cps|, ScanBackward, ctx)
      case Going(rest, next) =>
        ScanBackwardKeeps(cps, stop, top, rest, next);
        if stop == 0 {
          var r := ScanBackwardFinds(cps, top, top, rest, next);
        }
      case Ended(_, next) =>
        if next.state.ScanNormal? {
          OldestByNeighbour(cps, top, next.period, top);
        }
    }
  }

  /** The first visit of the first scan: the newest checkpoint becomes a span of its own. */
  lemma {:induction false} FirstVisit(cps: seq<Cpinfo>, ctx: ScanContext)
    requires Ascending(cps) && cps != []
    requires ctx == ScanContext([], 0, 0, ScanInit, ctx.time, ctx.period, CNO_MAX)
    ensures var cp := cps[|cps| - 1];
            var age := if ctx.time > cp.create then ctx.time - cp.create else 0;
            var (verdict, next) := ScanBackward(cp, ctx);
            && next.cphist == [SingleSpan(cp)] && next.elapsed == 0
            && Recording(cps, |cps| - 1, next) && Intact(cps, next.cphist) && Top(cps, next.cphist) == |cps| - 1
            && (if ctx.period < age then verdict == 2 && next.state.ScanDone? && next.minInclCno == CNO_MAX
                else
                  && verdict == 1 && next.state.ScanNormal?
                  && next.minInclCno == cp.cno && next.period == ctx.period - age)
  {
    SingleSpanOk(cps, |cps| - 1);
    assert [] + [SingleSpan(cps[|cps| - 1])] == [SingleSpan(cps[|cps| - 1])];
  }

  /** The answer of a forward extension from a span: the first newer checkpoint that reaches the target, or none. */
  ghost predicate ForwardAnswer(cps: seq<Cpinfo>, sp: Cpspan, target: nat, cno: nat) {
    var lo := Rank(cps, sp.end.cno + 1);
    || (cno == CNO_MAX && forall q :: lo <= q < |cps| ==> !Reaches(cps, sp, lo, target, q))
    || (exists k :: lo <= k < |cps| && cno == cps[k].cno && Reaches(cps, sp, lo, target, k)
                    && forall q :: lo <= q < k ==> !Reaches(cps, sp, lo, target, q))
  }

  /** An unfinished or finished extension backward, from a sound history. */
  lemma {:induction false} ScanOnBackward(cps: seq<Cpinfo>, stop: nat, limit: nat, ctx: ScanContext)
    requires Ascending(cps) && HistoryOk(cps, ctx.cphist, ctx.elapsed) && ctx.cphist != []
    requires ctx.index == |ctx.cphist| - 1 && ctx.state.ScanNormal?
    requires stop <= Bottom(cps, ctx.cphist) && limit >= |cps| && (limit >= 1 || stop == Bottom(cps, ctx.cphist))
    ensures var w := WalkDown(cps, stop, Bottom(cps, ctx.cphist), limit, ScanBackward, ctx);
            && w.ctx.cphist != [] && HistoryOk(cps, w.ctx.cphist, w.ctx.elapsed)
            && w.ctx.cphist[0].end == ctx.cphist[0].end && Extends(ctx.cphist, w.ctx.cphist)
            && (Intact(cps, ctx.cphist) ==> Intact(cps, w.ctx.cphist))
            && (stop == 0 && ctx.elapsed <= ctx.period && ctx.minInclCno == ctx.cphist[ctx.index].start.cno ==>
                  ReachesBack(cps, w.ctx.cphist, w.ctx.elapsed, ctx.period, w.ctx.minInclCno))
            && (Intact(cps, ctx.cphist) && stop == 0 && 0 <= ctx.elapsed <= ctx.period
                && ctx.minInclCno == ctx.cphist[ctx.index].start.cno ==>
                  exists r: nat :: OldestWithin(cps, Top(cps, ctx.cphist), ctx.period,
                                                r) && w.ctx.minInclCno == cps[r].cno)
  {
    hide Total, SpansOk, ScanBackward, WalkDown, Splits, Extends;
    var p := Bottom(cps, ctx.cphist);
    ScanBackwardExtends(cps, stop, p, limit, ctx);
    ScanBackwardKeeps(cps, stop, p, limit, ctx);
    if stop == 0 && ctx.elapsed <= ctx.period && ctx.minInclCno == ctx.cphist[ctx.index].start.cno {
      ScanBackwardSplits(cps, p, limit, ctx);
    }
    if Intact(cps, ctx.cphist) && stop == 0 && ctx.elapsed <= ctx.period
       && ctx.minInclCno == ctx.cphist[ctx.index].start.cno
    {
      TotalIsDist(cps, ctx.cphist, |ctx.cphist|);
      assert Listed(cps, ctx.cphist[ctx.index].start);
      var r := ScanBackwardFinds(cps, Top(cps, ctx.cphist), p, limit, ctx);
    }
  }

  /** An unfinished or finished extension forward, from a sound history. */
  lemma {:induction false} ScanOnForward(cps: seq<Cpinfo>, stop: nat, limit: nat, ctx: ScanContext)
    requires Ascending(cps) && HistoryOk(cps, ctx.cphist, ctx.elapsed) && ctx.cphist != []
    requires ctx.state.ScanNormal? && ctx.minInclCno == CNO_MAX
    requires var lo := Rank(cps, ctx.cphist[0].end.cno + 1);
             lo <= stop <= |cps| && limit >= |cps| && (limit >= 1 || lo == stop)
    ensures var w := WalkUp(cps, Rank(cps, ctx.cphist[0].end.cno + 1), stop, limit, ScanForward, ctx);
            && w.ctx.cphist != [] && HistoryOk(cps, w.ctx.cphist, w.ctx.elapsed)
            && (w.ctx.cphist[0].end == ctx.cphist[0].end ||
                exists k :: 0 <= k < |cps| && w.ctx.cphist[0].end == TimeOf(cps[k]))
            && (Intact(cps, ctx.cphist) ==> Intact(cps, w.ctx.cphist))
            && (stop == |cps| && |ctx.cphist| == 1 ==> ForwardAnswer(cps, ctx.cphist[0], ctx.period, w.ctx.minInclCno))
  {
    hide Total, SpansOk, ScanForward, WalkUp, Reaches;
    var lo := Rank(cps, ctx.cphist[0].end.cno + 1);
    ScanForwardWalk(cps, lo, stop, limit, ctx);
    if |ctx.cphist| == 1 {
      ScanForwardFinds(cps, lo, stop, limit, ctx);
    }
  }
}
