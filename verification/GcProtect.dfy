/** The protection period, from the reverse mapper to what the collector asks the kernel to delete. */
module GcProtect {
  import opened Wrappers
  import opened Checkpoints
  import opened Spans
  import opened CpScan
  import opened CpAge
  import opened Cnormap
  import opened BlockCollect
  import opened GcLiveness
  import opened GcToss
  import opened GcSelect
  import opened GcReclaim

  /**
   When the mapper's answer for a protection period is the protected number of a run, then the run
   deletes no checkpoint that is within the period, however the history came about and whatever the
   kernel has deleted before, given that lives follow the rule of the DAT.
   */
  lemma {:induction false} PeriodHonoured(
      cps: seq<Cpinfo>, spans: seq<Cpspan>, elapsed: int, spans': seq<Cpspan>, elapsed': int,
      offset: nat, realtime: Option<nat>, period: nat, protect: nat, k: nat,
      req: Request, vs: seq<Vdesc>, ss: seq<nat>)
    requires Ascending(cps) && HistoryOk(cps, spans, elapsed) && k < |cps|
    requires TrackAnswer(cps, spans, elapsed, spans', elapsed', offset, realtime, period, protect)
    requires InPeriod(cps, spans, elapsed, spans', offset, realtime, period, k)
    requires Safe(req, vs, protect, ss)
    ensures forall p :: p in req.periods ==> !(p.start <= cps[k].cno < p.end)
    ensures forall n :: n in req.vblocknrs ==>
              exists i :: 0 <= i < |vs| && vs[i].vblocknr == n
                          && (vs[i].cno != 0 ==> !(vs[i].period.start <= cps[k].cno < vs[i].period.end))
  {
    hide TrackAnswer, InPeriod, HistoryOk, Ascending, FreedSafely, Live;
    AnswerProtects(cps, spans, elapsed, spans', elapsed', offset, realtime, period, protect, k);
    forall p | p in req.periods ensures !(p.start <= cps[k].cno < p.end) {
      assert Harmless(p, protect, ss);
    }
    forall n | n in req.vblocknrs
      ensures exists i :: 0 <= i < |vs| && vs[i].vblocknr == n
                          && (vs[i].cno != 0 ==> !(vs[i].period.start <= cps[k].cno < vs[i].period.end))
    {
      FreedElsewhere(n, vs, protect, ss, cps[k].cno);
    }
  }

  /** The life of a block that is freed safely holds no protected checkpoint. */
  lemma {:induction false} FreedElsewhere(n: nat, vs: seq<Vdesc>, protect: nat, ss: seq<nat>, cno: nat)
    requires FreedSafely(n, vs, protect, ss) && protect <= cno
    ensures exists i :: 0 <= i < |vs| && vs[i].vblocknr == n
                        && (vs[i].cno != 0 ==> !(vs[i].period.start <= cno < vs[i].period.end))
  {
    hide Live;
  }

  // ----- one call of the daemon -----

  /**
   The request deletes no period with this number, and frees no block whose life holds it, but for
   overwritten metadata.
   */
  ghost predicate Keeps(req: Request, lives: nat -> Period, vdescs: seq<Vdesc>, x: nat) {
    && (forall p :: p in req.periods ==> !(p.start <= x < p.end))
    && (forall n :: n in req.vblocknrs ==>
          exists v :: v in vdescs && v.vblocknr == n &&
                      if v.cno == 0 then lives(n).end != CNO_MAX else !(lives(n).start <= x < lives(n).end))
  }

  lemma {:induction false} SparesKeeps(req: Request, lives: nat -> Period, vdescs: seq<Vdesc>, cps: seq<Cpinfo>,
                                       params: Params, x: nat)
    requires Spares(req, lives, vdescs, cps, params) && Needed(cps, params, x)
    ensures Keeps(req, lives, vdescs, x)
  {
    hide Needed;
    forall p: Period | p.start <= x < p.end ensures HoldsNeeded(cps, params, p) {
    }
    hide HoldsNeeded;
  }

  lemma {:induction false} AllKept(req: Request, lives: nat -> Period, vdescs: seq<Vdesc>, cps: seq<Cpinfo>,
                                   params: Params)
    requires Spares(req, lives, vdescs, cps, params) && params.hasProtcno
    ensures forall k :: 0 <= k < |cps| && (cps[k].snapshot || params.protcno <= cps[k].cno) ==>
              Keeps(req, lives, vdescs, cps[k].cno)
  {
    hide Spares, Keeps;
    forall k | 0 <= k < |cps| && (cps[k].snapshot || params.protcno <= cps[k].cno)
      ensures Keeps(req, lives, vdescs, cps[k].cno)
    {
      SparesKeeps(req, lives, vdescs, cps, params, cps[k].cno);
    }
  }

  /** The checkpoint is younger than the period, by clocks that have this difference. */
  ghost predicate Young(cps: seq<Cpinfo>, difference: int, realtime: Option<nat>, monotonic: nat, period: nat, k: nat) {
    k < |cps| && InTime(cps, difference, realtime, monotonic) && AgeAt(cps, k, difference + monotonic) < period
  }

  /** A call of nilfs_cnormap_track_back, with all that its answer protects. */
  method ProtectedNumber(mapper: Mapper, period: nat, realtime: Option<nat>, monotonic: Option<nat>)
    returns (cno: Option<nat>)
    requires mapper.Valid()
    requires monotonic.Some? ==> mapper.baseClock <= monotonic.value
    modifies mapper, mapper.nilfs`mincno
    ensures mapper.Valid()
    ensures cno.Some? && period == 0 ==> cno.value == CNO_MAX
    ensures cno.Some? && period > 0 ==>
              && monotonic.Some?
              && TrackAnswer(mapper.nilfs.cps, old(mapper.cphist), old(mapper.elapsed), mapper.cphist, mapper.elapsed,
                             if old(mapper.cphist) == [] then 0 else old(mapper.Offset(monotonic.value)), realtime,
                             period, cno.value)
    ensures cno.Some? && period > 0 ==>
              forall k :: 0 <= k < |mapper.nilfs.cps| &&
                          InPeriod(mapper.nilfs.cps, old(mapper.cphist), old(mapper.elapsed), mapper.cphist,
                                   if old(mapper.cphist) == [] then 0 else old(mapper.Offset(monotonic.value)),
                                   realtime, period, k) ==>
                cno.value <= mapper.nilfs.cps[k].cno
    ensures cno.Some? && period > 0 ==>
              forall difference: int, k: nat ::
                old(mapper.EndsKept() && mapper.InStep(difference)) &&
                Young(mapper.nilfs.cps, difference, realtime, monotonic.value, period, k) ==>
                  cno.value <= mapper.nilfs.cps[k].cno
  {
    hide Protects, Intact, SpansOk, ForwardAnswer, Splits, ReachesBack, Extends, WithinAnswer, InPeriod, TrackAnswer,
      FreshAnswer, AgeAt;
    ghost var cps, spans, recorded := mapper.nilfs.cps, mapper.cphist, mapper.elapsed;
    cno := mapper.TrackBack(period, realtime, monotonic);
    if cno.Some? && period > 0 {
      ghost var offset := if spans == [] then 0 else old(mapper.Offset(monotonic.value));
      forall k | 0 <= k < |cps| && InPeriod(cps, spans, recorded, mapper.cphist, offset, realtime, period, k)
        ensures cno.value <= cps[k].cno
      {
        AnswerProtects(cps, spans, recorded, mapper.cphist, mapper.elapsed, offset, realtime, period, cno.value, k);
      }
      forall difference: int, k: nat |
        old(mapper.EndsKept() && mapper.InStep(difference)) &&
          Young(cps, difference, realtime, monotonic.value, period, k)
        ensures cno.value <= cps[k].cno
      {
        var now := difference + monotonic.value;
        if spans == [] {
          FirstAnswer(cps, spans, recorded, mapper.cphist, mapper.elapsed, realtime, period, cno.value);
          ProtectsLess(cps, now, period, cno.value);
        }
        ProtectsThat(cps, now, period - 1, cno.value, k);
      }
    }
  }

  lemma {:induction false} ProtectsThat(cps: seq<Cpinfo>, now: int, period: nat, cno: nat, k: nat)
    requires k < |cps| && Protects(cps, now, period, cno) && AgeAt(cps, k, now) <= period
    ensures cno <= cps[k].cno
  {
  }

  lemma {:induction false} FirstAnswer(cps: seq<Cpinfo>, spans: seq<Cpspan>, elapsed: int, spans': seq<Cpspan>,
                                       elapsed': int,
                                       realtime: Option<nat>, period: nat, cno: nat)
    requires Ascending(cps) && spans == [] &&
             TrackAnswer(cps, spans, elapsed, spans', elapsed', 0, realtime, period, cno)
    ensures realtime.Some? && Protects(cps, realtime.value, period, cno)
  {
    hide Protects, FreshAnswer;
    FreshProtects(cps, realtime.value, period, cno);
  }

  /**
   The middle of nilfs_cleanerd_clean_segments: the protection period becomes a checkpoint number, and
   the segments are reclaimed.  Given that lives follow the rule of the DAT, nothing is asked of the
   kernel that deletes a snapshot, a checkpoint that the mapper's branch counts to the period, or, for
   clocks that go together and an intact history, a checkpoint younger than the period.
   */
  method CleanSegments(mapper: Mapper, reclaimer: Reclaimer, dev: Device, kernel: Kernel, segnums: array<nat>,
                       nsegs: nat,
                       period: nat, minReclaimable: nat, protseq: nat, realtime: Option<nat>, monotonic: Option<nat>,
                       stat: ReclaimStat)
    returns (ret: int, request: Option<Request>, updates: seq<nat>, ghost blocks: seq<Block>, ghost cno: Option<nat>,
             ghost stage: Stage)
    requires mapper.Valid() && mapper.nilfs == reclaimer.nilfs
    requires monotonic.Some? ==> mapper.baseClock <= monotonic.value
    requires ValidDevice(dev, reclaimer.perSegment) && nsegs <= segnums.Length
    modifies mapper, mapper.nilfs`mincno, reclaimer`setSuinfo, segnums, stat
    ensures mapper.Valid()
    ensures cno.None? ==> ret == -1 && stage.Started?
    ensures stage.Started? ==> request.None? && updates == [] && unchanged(stat)
    ensures cno.Some? && period == 0 ==> cno.value == CNO_MAX
    ensures cno.Some? && period > 0 ==>
              && monotonic.Some?
              && TrackAnswer(mapper.nilfs.cps, old(mapper.cphist), old(mapper.elapsed), mapper.cphist, mapper.elapsed,
                             if old(mapper.cphist) == [] then 0 else old(mapper.Offset(monotonic.value)), realtime,
                             period, cno.value)
    ensures cno.Some? ==>
              blocks == Collection(dev, protseq, reclaimer.perSegment, old(segnums[..nsegs]), nsegs)
    ensures request.Some? ==> stage.Tossed?
    ensures request.Some? ==>
              && cno.Some?
              && Accounts(request.value, kernel.lives, Vdescs(blocks), mapper.nilfs.cps,
                          Params(true, true, true, false, minReclaimable, protseq, cno.value))
              && MovesCurrent(request.value, kernel.current, Bdescs(blocks))
    ensures request.Some? ==>
              var n := |request.value.segnums|;
              && n <= nsegs && request.value.segnums == segnums[..n]
              && (forall j :: 0 <= j < n ==> Takable(dev, segnums[j], protseq))
              && (forall j :: n <= j < nsegs ==> Refused(dev, segnums[j], protseq))
    ensures stage.Tossed? && stat.deferred != 0 ==>
              old(reclaimer.setSuinfo) && stat.defunct < minReclaimable * stat.deferred
    ensures request.Some? && reclaimer.setSuinfo ==> stat.defunct >= minReclaimable * stat.cleaned
    ensures updates != [] ==> |updates| == stat.deferred && request.None?
    ensures request.Some? && DatRule(kernel.lives, Vdescs(blocks)) ==>
              forall k :: 0 <= k < |mapper.nilfs.cps| && mapper.nilfs.cps[k].snapshot ==>
                Keeps(request.value, kernel.lives, Vdescs(blocks), mapper.nilfs.cps[k].cno)
    ensures request.Some? && period > 0 ==> monotonic.Some?
    ensures request.Some? && period > 0 && DatRule(kernel.lives, Vdescs(blocks)) ==>
              forall k :: 0 <= k < |mapper.nilfs.cps| &&
                          InPeriod(mapper.nilfs.cps, old(mapper.cphist), old(mapper.elapsed), mapper.cphist,
                                   if old(mapper.cphist) == [] then 0 else old(mapper.Offset(monotonic.value)),
                                   realtime, period, k) ==>
                Keeps(request.value, kernel.lives, Vdescs(blocks), mapper.nilfs.cps[k].cno)
    ensures request.Some? && period > 0 && DatRule(kernel.lives, Vdescs(blocks)) ==>
              forall difference: int, k: nat ::
                old(mapper.EndsKept() && mapper.InStep(difference)) &&
                Young(mapper.nilfs.cps, difference, realtime, monotonic.value, period, k) ==>
                  Keeps(request.value, kernel.lives, Vdescs(blocks), mapper.nilfs.cps[k].cno)
  {
    hide Keeps, InPeriod, TrackAnswer, Collection, Mapper.Offset, Mapper.EndsKept, Mapper.InStep, HistoryOk,
      Nilfs.Valid, DatRule, ValidDevice,
      Vdescs, Bdescs,
      Faithful, Safe, Spares, Accounts, MovesCurrent, Takable, Refused, Arranged, Filled, Looked, Snapshots, Cnos;
    ret, request, updates, blocks, stage := -1, None, [], [], Started;
    var protcno := ProtectedNumber(mapper, period, realtime, monotonic);
    cno := protcno;
    if protcno.None? {
      return;
    }
    var params := Params(true, true, true, false, minReclaimable, protseq, protcno.value);
    ghost var segs, svs, sbs;
    ret, request, updates, stage, segs, svs,
      sbs := reclaimer.Xreclaim(dev, kernel, segnums, nsegs, false, params, stat);
    blocks := reclaimer.Blocks(dev, params, segs);
    if request.Some? && DatRule(kernel.lives, Vdescs(blocks)) {
      AllKept(request.value, kernel.lives, Vdescs(blocks), mapper.nilfs.cps, params);
    }
  }
}
