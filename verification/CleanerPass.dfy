/** What a pass of the cleaner daemon and a message achieve, field by field. */
module CleanerPass {
  import opened Wrappers
  import opened CleanerState

  /** The number of segments that were cleaned or deferred in the pass. */
  function DoneWith(i: Input): nat {
    if i.chosen > 0 && i.answer.Done? then i.answer.cleaned + i.answer.deferred else 0
  }

  ghost predicate Ordinary(s: State) { s.running == IDLE || s.running == AUTOMATIC }

  /**
   The speed that the clean check chooses: the accelerated one when clean segments run short, otherwise
   the ordinary one.  Without the clean check, or without cleaning, it stays.
   */
  ghost predicate SpeedRight(c: Config, s: State, i: Input, t: State, selected: bool) {
    && (Ordinary(s) && c.minClean > 0 && selected ==>
          (t.ncleansegs, t.interval, t.minBlocks) ==
            if i.usage.clean < c.minClean + i.usage.reserved then (c.mcNsegs, c.mcInterval, c.mcMinBlocks)
            else (c.nsegs, c.interval, c.minBlocks))
    && ((Ordinary(s) && (c.minClean == 0 || !selected)) || s.running == SUSPENDED ==>
          (t.ncleansegs, t.interval, t.minBlocks) == (s.ncleansegs, s.interval, s.minBlocks))
  }

  /** When segments are selected: idle only for a reason, automatic unless there are enough clean ones. */
  ghost predicate SelectsRight(c: Config, s: State, i: Input, t: State, selected: bool) {
    && (s.running == SUSPENDED ==> !selected)
    && (s.running == IDLE ==>
          (selected <==> if c.minClean > 0 then i.usage.clean < c.minClean + i.usage.reserved
                         else i.usage.ctime != s.prevCtime))
    && (s.running == AUTOMATIC ==>
          (!selected <==> c.minClean > 0 && i.usage.clean > c.maxClean + i.usage.reserved))
    && t.prevCtime == if s.running == IDLE && c.minClean == 0 && selected then i.usage.ctime else
                      if s.running == MANUAL then t.prevCtime else s.prevCtime
  }

  /** A manual run has no pass left to begin, or there is nothing in use. */
  ghost predicate Exhausted(s: State, i: Input) {
    s.segs == 0 && (s.passes == 0 || i.inuse < 0 || (s.passes == 1 && i.inuse == 0))
  }

  /**
   A manual run goes on just when it is not exhausted, and something was done or is to be tried again.
   A pass of the run begins with all segments in use, and every segment counts down, cleaned or deferred.
   */
  ghost predicate CountsRight(s: State, i: Input, t: State) {
    && (s.running != MANUAL ==> t.running != MANUAL && t.passes == s.passes && t.segs == s.segs)
    && (s.running == MANUAL ==>
          (t.running == MANUAL <==> !Exhausted(s, i) && i.chosen > 0 && (t.fallback || t.retry || DoneWith(i) > 0)))
    && (s.running == MANUAL && t.running == MANUAL ==>
          var toDo := if s.segs == 0 then i.inuse else s.segs;
          && t.passes == (if s.segs == 0 then s.passes - 1 else s.passes)
          && t.segs == if DoneWith(i) < toDo then toDo - DoneWith(i) else 0)
  }

  /**
   The flags: lack of memory asks for a fallback until something is done; a fruitless pass is retried
   once at most.
   */
  ghost predicate FlagsRight(i: Input, s: State, t: State, selected: bool) {
    if !selected then t.fallback == s.fallback && t.retry == s.retry && !t.noTimeout
    else
      && t.fallback == ((i.chosen > 0 && i.answer.NoMemory?) || (s.fallback && DoneWith(i) == 0))
      && t.retry == (if i.chosen == 0 || DoneWith(i) > 0 then false
                     else if i.answer.NoMemory? then s.retry
                     else i.answer.Done? && i.answer.still && i.answer.shrunk && !s.retry)
      && t.noTimeout == (DoneWith(i) > 0 && i.answer.cleaned == 0)
  }

  /** There is something to go on with: segments were done, or are to be tried again. */
  ghost predicate GoesOn(i: Input, t: State) { i.chosen > 0 && (t.fallback || t.retry || DoneWith(i) > 0) }

  /**
   The time of the next cleaning: after a lack of memory the retry interval from now; at once when
   segments were only deferred; otherwise at the time that was aimed at, or now if that is past.  The
   next aim is one interval later.
   */
  ghost predicate NextRight(c: Config, s: State, i: Input, t: State, selected: bool) {
    selected && GoesOn(i, t) && (s.running == MANUAL ==> t.running == MANUAL) ==>
      && i.monotonic.Some?
      && var now := i.monotonic.value;
         if t.fallback then t.timeout == c.retryInterval && t.target == now + c.retryInterval
         else
           var wake := if t.noTimeout || now >= s.target then now else s.target;
           now + t.timeout == wake && t.target == wake + if t.running == MANUAL then s.mmInterval else t.interval
  }

  /**
   The wait when there is nothing to go on with: at least the check interval, and until the oldest
   reclaimable segment is no longer protected; when there is none, for the protection period, idle.
   */
  ghost predicate MoreRight(c: Config, s: State, i: Input, t: State, selected: bool) {
    Ordinary(s) && selected && !GoesOn(i, t) ==>
      && t.target == s.target && t.timeout >= c.checkInterval
      && if i.oldest == NULLTIME then
           t.running == IDLE && t.timeout >= c.protection && (t.timeout == c.checkInterval || t.timeout == c.protection)
         else
           && t.running == AUTOMATIC && i.realTime.Some?
           && var from := if i.oldest < i.realTime.value then i.oldest else i.realTime.value;
              && t.timeout > (from - i.prottime) * SECOND && t.timeout >= SECOND
              && (t.timeout == c.checkInterval || t.timeout == SECOND || t.timeout == (from - i.prottime + 1) * SECOND)
  }

  /** Automatic cleaning goes on unless nothing is left to wait for; a pause lasts for the check interval. */
  ghost predicate ModeRight(c: Config, s: State, i: Input, t: State, selected: bool) {
    && (Ordinary(s) && selected && GoesOn(i, t) ==> t.running == AUTOMATIC)
    && (s.running == AUTOMATIC && !selected ==> t.running == IDLE && t.timeout == c.checkInterval)
    && (s.running == IDLE && !selected ==> t.running == IDLE && t.timeout == s.timeout)
    && (s.running == SUSPENDED ==> t.running == SUSPENDED && t.timeout == s.timeout)
    && (s.running == MANUAL && !Exhausted(s, i) && !GoesOn(i, t) ==> t.running == IDLE && t.timeout == c.checkInterval)
  }

  /** The halving after a lack of memory: of the number that is not in use. */
  ghost predicate HalvesRight(s: State, i: Input, t: State, selected: bool) {
    var short := selected && i.chosen > 0 && i.answer.NoMemory?;
    && (Ordinary(s) ==> t.mmNsegs == if short && s.mmNsegs > 1 then s.mmNsegs / 2 else s.mmNsegs)
    && (s.running == MANUAL && !Exhausted(s, i) ==>
          t.mmNsegs == s.mmNsegs && t.interval == s.interval && t.minBlocks == s.minBlocks
          && t.ncleansegs == if short && s.ncleansegs > 1 then s.ncleansegs / 2 else s.ncleansegs)
  }

  /** What no pass changes. */
  ghost predicate Untouched(s: State, t: State) {
    (t.config, t.shutdown, t.jobid, t.prevState, t.mmProtection, t.mmInterval, t.mmMinBlocks) ==
    (s.config, s.shutdown, s.jobid, s.prevState, s.mmProtection, s.mmInterval, s.mmMinBlocks)
  }

  /** All that a pass without a message achieves. */
  ghost predicate PassRight(c: Config, s: State, i: Input, t: State, selected: bool) {
    ChoosesRight(c, s, i, t, selected) && TalliesRight(s, i, t, selected) && TimesRight(c, s, i, t, selected)
  }

  ghost predicate ChoosesRight(c: Config, s: State, i: Input, t: State, selected: bool) {
    && SpeedRight(c, s, i, t, selected) && SelectsRight(c, s, i, t, selected)
    && HalvesRight(s, i, t, selected) && Untouched(s, t)
  }

  ghost predicate TalliesRight(s: State, i: Input, t: State, selected: bool) {
    CountsRight(s, i, t) && FlagsRight(i, s, t, selected)
  }

  ghost predicate TimesRight(c: Config, s: State, i: Input, t: State, selected: bool) {
    NextRight(c, s, i, t, selected) && MoreRight(c, s, i, t, selected) && ModeRight(c, s, i, t, selected)
  }

  // ----- the three parts of a pass -----

  /** The speed of the pass. */
  function Sped(c: Config, s: State, u: Sustat): State {
    if c.minClean == 0 then s
    else if u.clean < c.minClean
      + u.reserved then s.(ncleansegs := c.mcNsegs, interval := c.mcInterval, minBlocks := c.mcMinBlocks)
    else s.(ncleansegs := c.nsegs, interval := c.interval, minBlocks := c.minBlocks)
  }

  lemma {:induction false} CheckIdle(c: Config, s: State, u: Sustat, inuse: int)
    requires s.running == IDLE
    ensures var (t, sleep) := CheckState(c, s, u, inuse);
            && (sleep <==> if c.minClean > 0 then u.clean >= c.minClean + u.reserved else u.ctime == s.prevCtime)
            && t == if sleep then s
                    else Sped(c, s, u).(running := AUTOMATIC, prevCtime := if c.minClean > 0 then s.prevCtime
                                        else u.ctime)
  {
  }

  lemma {:induction false} CheckAutomatic(c: Config, s: State, u: Sustat, inuse: int)
    requires s.running == AUTOMATIC
    ensures var (t, sleep) := CheckState(c, s, u, inuse);
            && (sleep <==> c.minClean > 0 && u.clean > c.maxClean + u.reserved)
            && t == if sleep then s.(running := IDLE, timeout := c.checkInterval) else Sped(c, s, u)
  {
  }

  lemma {:induction false} CheckManual(c: Config, s: State, i: Input)
    requires s.running == MANUAL
    ensures var (t, sleep) := CheckState(c, s, i.usage, i.inuse);
            if Exhausted(s, i) then
              && Ordinary(t) && t.fallback == s.fallback && t.retry == s.retry && t.noTimeout == s.noTimeout
              && Untouched(s, t)
            else
              !sleep && t == if s.segs == 0 then s.(passes := s.passes - 1, segs := i.inuse) else s
  {
    hide CleanCheck;
    var s1 := ManualMode(c, s, i.inuse);
    CheckedKeeps(c, s1, i.usage);
  }

  lemma {:induction false} CheckedKeeps(c: Config, s: State, u: Sustat)
    ensures var t := CleanCheck(c, s, u).0;
            && t.fallback == s.fallback && t.retry == s.retry && t.noTimeout == s.noTimeout && Untouched(s, t)
            && (Ordinary(s) ==> Ordinary(t))
  {
  }

  /** The second part: the segments are cleaned, or there are none. */
  function CleanPart(s: State, i: Input): (State, nat, bool) {
    if i.chosen > 0 then CleanSegments(s, i.answer) else (s.(retry := false), 0, false)
  }

  lemma {:induction false} CleanPartMeans(s: State, i: Input)
    requires i.chosen >= 0 && !s.noTimeout && !CleanPart(s, i).2
    ensures var (t, ndone, _) := CleanPart(s, i);
            && ndone == DoneWith(i) && FlagsRight(i, s, t, true)
            && t.segs == (if s.running != MANUAL then s.segs else if DoneWith(i) < s.segs then s.segs - DoneWith(i)
                          else 0)
  {
  }

  lemma {:induction false} CleanPartHalves(s: State, i: Input)
    requires i.chosen >= 0 && !CleanPart(s, i).2
    ensures var t, short := CleanPart(s, i).0, i.chosen > 0 && i.answer.NoMemory?;
            && t.ncleansegs == (if s.running == MANUAL && short && s.ncleansegs > 1 then s.ncleansegs / 2
                                else s.ncleansegs)
            && t.mmNsegs == (if s.running != MANUAL && short && s.mmNsegs > 1 then s.mmNsegs / 2 else s.mmNsegs)
  {
  }

  /** What it changes at most. */
  ghost predicate CleanedFrom(s: State, t: State) {
    t == s.(fallback := t.fallback, retry := t.retry, noTimeout := t.noTimeout, segs := t.segs,
            ncleansegs := t.ncleansegs, mmNsegs := t.mmNsegs)
  }

  lemma {:induction false} CleanPartKeeps(s: State, i: Input)
    ensures CleanedFrom(s, CleanPart(s, i).0)
  {
    hide Counted;
    if i.answer.Done? {
      CountedKeeps(s, i.answer.cleaned, i.answer.deferred);
    }
  }

  lemma {:induction false} CountedKeeps(s: State, cleaned: nat, deferred: nat)
    ensures CleanedFrom(s, Counted(s, cleaned, deferred))
  {
    hide Progress;
    ProgressKeeps(s, cleaned);
    var s1 := if cleaned > 0 then Progress(s, cleaned).(fallback := false, retry := false) else s;
    assert s1 == s.(segs := s1.segs, fallback := s1.fallback, retry := s1.retry);
    ProgressKeeps(s1, deferred);
  }

  lemma {:induction false} ProgressKeeps(s: State, nsegs: nat)
    ensures Progress(s, nsegs) == s.(segs := Progress(s, nsegs).segs)
  {
  }

  /** The third part: when to go on. */
  lemma {:induction false} RecalcKeeps(c: Config, s: State, chosen: int, ndone: nat, i: Input)
    ensures var t := Recalc(c, s, chosen, ndone, i).0;
            t == s.(running := t.running, timeout := t.timeout, target := t.target)
  {
  }

  lemma {:induction false} RecalcMode(c: Config, s: State, i: Input)
    requires i.chosen >= 0 && !Recalc(c, s, i.chosen, DoneWith(i), i).1
    ensures var t := Recalc(c, s, i.chosen, DoneWith(i), i).0;
            && (GoesOn(i, s) ==> t.running == s.running)
            && (t.running == MANUAL ==> s.running == MANUAL)
            && (s.running == MANUAL && !GoesOn(i, s) ==> t.running == IDLE && t.timeout == c.checkInterval)
  {
  }

  lemma {:induction false} RecalcNext(c: Config, s: State, i: Input)
    requires i.chosen >= 0 && GoesOn(i, s) && !Recalc(c, s, i.chosen, DoneWith(i), i).1
    ensures NextRight(c, s, i, Recalc(c, s, i.chosen, DoneWith(i), i).0, true)
  {
  }

  lemma {:induction false} RecalcMore(c: Config, s: State, i: Input)
    requires i.chosen >= 0 && s.running == AUTOMATIC && !GoesOn(i, s) && !Recalc(c, s, i.chosen, DoneWith(i), i).1
    ensures MoreRight(c, s, i, Recalc(c, s, i.chosen, DoneWith(i), i).0, true)
  {
  }

  // ----- the whole pass -----

  /** The three parts one after the other. */
  lemma {:induction false} PassParts(c: Config, s: State, i: Input)
    requires i.message.None? && !Pass(c, s, i).failed
    ensures var o, (s1, sleep) := Pass(c, s, i), CheckState(c, s.(noTimeout := false), i.usage, i.inuse);
            if sleep then o == Outcome(s1, false, false)
            else
              && i.chosen >= 0 && !CleanPart(s1, i).2
              && var (s2, ndone, _) := CleanPart(s1, i);
                 !Recalc(c, s2, i.chosen, ndone, i).1 && o == Outcome(Recalc(c, s2, i.chosen, ndone, i).0, true, false)
  {
    hide CheckState, CleanSegments, Recalc;
  }

  lemma {:induction false} SuspendedAchieves(c: Config, s: State, i: Input)
    requires s.running == SUSPENDED && i.message.None? && !Pass(c, s, i).failed
    ensures PassRight(c, s, i, Pass(c, s, i).state, Pass(c, s, i).selected)
  {
    hide CleanSegments, Recalc;
    PassParts(c, s, i);
  }

  /** The right time depends on the aim and the speeds alone. */
  lemma {:induction false} NextFrom(c: Config, s: State, s2: State, i: Input, t: State)
    requires NextRight(c, s2, i, t, true) && s2.target == s.target && s2.mmInterval == s.mmInterval
    requires s2.running == MANUAL <==> s.running == MANUAL
    ensures NextRight(c, s, i, t, true)
  {
  }

  lemma {:induction false} NoTime(c: Config, s: State, i: Input, t: State, selected: bool)
    ensures !selected || !GoesOn(i, t) ==> NextRight(c, s, i, t, selected)
    ensures !selected || GoesOn(i, t) ==> MoreRight(c, s, i, t, selected)
  {
  }

  lemma {:induction false} MoreFrom(c: Config, s: State, s2: State, i: Input, t: State)
    requires MoreRight(c, s2, i, t, true) && s2.target == s.target && Ordinary(s2)
    ensures MoreRight(c, s, i, t, true)
  {
  }

  lemma {:induction false} OrdinaryChooses(c: Config, s: State, i: Input)
    requires Ordinary(s) && i.message.None? && !Pass(c, s, i).failed
    ensures ChoosesRight(c, s, i, Pass(c, s, i).state, Pass(c, s, i).selected)
  {
    hide CheckState, CleanPart, Recalc, Pass, FlagsRight, GoesOn;
    PassParts(c, s, i);
    var s0 := s.(noTimeout := false);
    var (s1, sleep) := CheckState(c, s0, i.usage, i.inuse);
    if s.running == IDLE {
      CheckIdle(c, s0, i.usage, i.inuse);
    } else {
      CheckAutomatic(c, s0, i.usage, i.inuse);
    }
    if !sleep {
      var s2 := CleanPart(s1, i).0;
      CleanPartMeans(s1, i);
      CleanPartKeeps(s1, i);
      RecalcKeeps(c, s2, i.chosen, DoneWith(i), i);
      CleanPartHalves(s1, i);
    }
  }

  lemma {:induction false} OrdinaryTallies(c: Config, s: State, i: Input)
    requires Ordinary(s) && i.message.None? && !Pass(c, s, i).failed
    ensures TalliesRight(s, i, Pass(c, s, i).state, Pass(c, s, i).selected)
  {
    hide CheckState, CleanPart, Recalc, Pass;
    PassParts(c, s, i);
    var s0 := s.(noTimeout := false);
    var (s1, sleep) := CheckState(c, s0, i.usage, i.inuse);
    if s.running == IDLE {
      CheckIdle(c, s0, i.usage, i.inuse);
    } else {
      CheckAutomatic(c, s0, i.usage, i.inuse);
    }
    if !sleep {
      var s2 := CleanPart(s1, i).0;
      CleanPartMeans(s1, i);
      CleanPartKeeps(s1, i);
      RecalcKeeps(c, s2, i.chosen, DoneWith(i), i);
      RecalcMode(c, s2, i);
    }
  }

  lemma {:induction false} OrdinaryTimes(c: Config, s: State, i: Input)
    requires Ordinary(s) && i.message.None? && !Pass(c, s, i).failed
    ensures TimesRight(c, s, i, Pass(c, s, i).state, Pass(c, s, i).selected)
  {
    hide CheckState, CleanPart, Recalc, Pass, NextRight;
    PassParts(c, s, i);
    var s0 := s.(noTimeout := false);
    var (s1, sleep) := CheckState(c, s0, i.usage, i.inuse);
    if s.running == IDLE {
      CheckIdle(c, s0, i.usage, i.inuse);
    } else {
      CheckAutomatic(c, s0, i.usage, i.inuse);
    }
    NoTime(c, s, i, Pass(c, s, i).state, !sleep);
    if !sleep {
      var s2 := CleanPart(s1, i).0;
      CleanPartMeans(s1, i);
      CleanPartKeeps(s1, i);
      RecalcKeeps(c, s2, i.chosen, DoneWith(i), i);
      RecalcMode(c, s2, i);
      if GoesOn(i, s2) {
        RecalcNext(c, s2, i);
        NextFrom(c, s, s2, i, Pass(c, s, i).state);
      } else {
        RecalcMore(c, s2, i);
        MoreFrom(c, s, s2, i, Pass(c, s, i).state);
        assert MoreRight(c, s, i, Pass(c, s, i).state, true);
      }
    }
  }

  lemma {:induction false} ManualChooses(c: Config, s: State, i: Input)
    requires s.running == MANUAL && i.message.None? && !Pass(c, s, i).failed
    ensures ChoosesRight(c, s, i, Pass(c, s, i).state, Pass(c, s, i).selected)
  {
    hide CheckState, CleanPart, Recalc, Pass, FlagsRight, GoesOn;
    PassParts(c, s, i);
    var s0 := s.(noTimeout := false);
    var (s1, sleep) := CheckState(c, s0, i.usage, i.inuse);
    CheckManual(c, s0, i);
    if !sleep {
      var s2 := CleanPart(s1, i).0;
      CleanPartMeans(s1, i);
      CleanPartKeeps(s1, i);
      RecalcKeeps(c, s2, i.chosen, DoneWith(i), i);
      CleanPartHalves(s1, i);
    }
  }

  lemma {:induction false} ManualTallies(c: Config, s: State, i: Input)
    requires s.running == MANUAL && i.message.None? && !Pass(c, s, i).failed
    ensures TalliesRight(s, i, Pass(c, s, i).state, Pass(c, s, i).selected)
  {
    hide CheckState, CleanPart, Recalc, Pass;
    PassParts(c, s, i);
    var s0 := s.(noTimeout := false);
    var (s1, sleep) := CheckState(c, s0, i.usage, i.inuse);
    CheckManual(c, s0, i);
    if !sleep {
      var s2 := CleanPart(s1, i).0;
      CleanPartMeans(s1, i);
      CleanPartKeeps(s1, i);
      RecalcKeeps(c, s2, i.chosen, DoneWith(i), i);
      RecalcMode(c, s2, i);
    }
  }

  lemma {:induction false} ManualTimes(c: Config, s: State, i: Input)
    requires s.running == MANUAL && i.message.None? && !Pass(c, s, i).failed
    ensures TimesRight(c, s, i, Pass(c, s, i).state, Pass(c, s, i).selected)
  {
    hide CheckState, CleanPart, Recalc, Pass;
    PassParts(c, s, i);
    var s0 := s.(noTimeout := false);
    var (s1, sleep) := CheckState(c, s0, i.usage, i.inuse);
    CheckManual(c, s0, i);
    if !sleep {
      var s2 := CleanPart(s1, i).0;
      CleanPartMeans(s1, i);
      CleanPartKeeps(s1, i);
      RecalcKeeps(c, s2, i.chosen, DoneWith(i), i);
      RecalcMode(c, s2, i);
      if GoesOn(i, s2) {
        RecalcNext(c, s2, i);
        if s2.running == MANUAL {
          NextFrom(c, s, s2, i, Pass(c, s, i).state);
        }
      }
    }
  }

  lemma {:induction false} PassAchieves(c: Config, s: State, i: Input)
    requires KnownState(s) && i.message.None? && !Pass(c, s, i).failed
    ensures PassRight(c, s, i, Pass(c, s, i).state, Pass(c, s, i).selected)
  {
    hide ChoosesRight, TalliesRight, TimesRight, Pass;
    if s.running == SUSPENDED {
      SuspendedAchieves(c, s, i);
    } else if s.running == MANUAL {
      ManualChooses(c, s, i);
      ManualTallies(c, s, i);
      ManualTimes(c, s, i);
    } else {
      OrdinaryChooses(c, s, i);
      OrdinaryTallies(c, s, i);
      OrdinaryTimes(c, s, i);
    }
  }

  /** A pass fails only when it is said to: no segments can be chosen, reclaiming fails, or a clock does. */
  ghost predicate FailsRight(i: Input, selected: bool, failed: bool) {
    && (failed ==> selected)
    && (selected && (i.chosen < 0 || (i.chosen > 0 && i.answer.Failure?)) ==> failed)
    && (failed && i.chosen >= 0 && !(i.chosen > 0 && i.answer.Failure?) ==> i.monotonic.None? || i.realTime.None?)
  }

  lemma {:induction false} PassFails(c: Config, s: State, i: Input)
    ensures FailsRight(i, Pass(c, s, i).selected, Pass(c, s, i).failed)
  {
    hide CheckState, Receive, Counted, Reduce;
  }

  // ----- messages -----

  /** A message comes last: it meets the state that the pass would have left without it. */
  lemma {:induction false} MessageLast(c: Config, s: State, i: Input)
    ensures var o, quiet := Pass(c, s, i), Pass(c, s, i.(message := None));
            && o.selected == quiet.selected && o.failed == quiet.failed
            && o.state == if o.failed then quiet.state else Receive(c, quiet.state, i.message)
  {
    hide CheckState, CleanSegments, Handle;
  }

  /** The least number of blocks to gain that was asked for: in blocks, or as a part of a segment, rounded up. */
  ghost predicate GoalRight(perSegment: nat, ordinary: nat, a: RunArgs, goal: nat) {
    match a.minBlocks
    case None => goal == ordinary
    case Some((n, Blocks)) => goal == n
    case Some((n, Percent)) => 100 * goal >= n * perSegment && 100 * (goal - 1) < n * perSegment
    case Some((_, Unknown)) => false
  }

  /** What a valid run command sets: what is asked for, otherwise what is in use. */
  ghost predicate RunRight(c: Config, s: State, a: RunArgs, t: State) {
    && t.mmProtection == (if a.protection.Some? then a.protection.value * 1_000_000_000 else c.protection)
    && t.mmNsegs == (if a.nsegs.Some? then a.nsegs.value else s.ncleansegs)
    && t.mmInterval == (if a.interval.Some? then a.interval.value else s.interval)
    && GoalRight(c.perSegment, s.minBlocks, a, t.mmMinBlocks)
    && t.passes == (if a.npasses.Some? then a.npasses.value else 1) && t.segs == 0
    && t.running == MANUAL && t.jobid == s.jobid + 1
    && t == s.(mmProtection := t.mmProtection, mmNsegs := t.mmNsegs, mmInterval := t.mmInterval,
               mmMinBlocks := t.mmMinBlocks,
               passes := t.passes, segs := t.segs, running := t.running, jobid := t.jobid)
  }

  /** What a refused one sets all the same: the arguments before the one that is refused. */
  ghost predicate RefusedRight(c: Config, s: State, a: RunArgs, t: State) {
    var period := if a.protection.Some? then a.protection.value * 1_000_000_000 else c.protection;
    if a.protection.Some? && a.protection.value > ULONG_MAX then t == s
    else if a.nsegs.Some? && !(1 <= a.nsegs.value <= NSEGMENTS_PER_CLEAN_MAX) then t == s.(mmProtection := period)
    else
      && t.mmProtection == period
      && t.mmNsegs == (if a.nsegs.Some? then a.nsegs.value else s.ncleansegs)
      && t.mmInterval == (if a.interval.Some? then a.interval.value else s.interval)
      && t == s.(mmProtection := t.mmProtection, mmNsegs := t.mmNsegs, mmInterval := t.mmInterval,
                 mmMinBlocks := t.mmMinBlocks)
      && (t.mmMinBlocks == s.mmMinBlocks || GoalRight(c.perSegment, s.minBlocks, a, t.mmMinBlocks))
      && (a.npasses == Some(0) || t.mmMinBlocks == s.mmMinBlocks)
  }

  lemma {:induction false} SpeedMeans(c: Config, s: State, a: RunArgs)
    ensures var (t, ok) := SetSpeed(c, s, a);
            && (ok ==> t == s.(mmProtection := if a.protection.Some? then a.protection.value * 1_000_000_000
                               else c.protection,
                               mmNsegs := if a.nsegs.Some? then a.nsegs.value else s.ncleansegs,
                               mmInterval := if a.interval.Some? then a.interval.value else s.interval))
            && (!ok ==> RefusedRight(c, s, a, t))
            && (ok <==> (a.protection.Some? ==> a.protection.value <= ULONG_MAX)
                        && (a.nsegs.Some? ==> 1 <= a.nsegs.value <= NSEGMENTS_PER_CLEAN_MAX))
  {
  }

  lemma {:induction false} GoalMeans(c: Config, s: State, a: RunArgs)
    ensures MinBlocks(c, s, a.minBlocks).Some? ==>
            GoalRight(c.perSegment, s.minBlocks, a, MinBlocks(c, s, a.minBlocks).value)
  {
  }

  lemma {:induction false} RunAchieves(c: Config, s: State, a: RunArgs)
    ensures var (t, ok) := CmdRun(c, s, a); if ok then RunRight(c, s, a, t) else RefusedRight(c, s, a, t)
  {
    hide SetSpeed, MinBlocks, GoalRight;
    SpeedMeans(c, s, a);
    GoalMeans(c, SetSpeed(c, s, a).0, a);
  }

  /** What every other message does, and whether it is acknowledged. */
  ghost predicate MessageRight(c: Config, s: State, m: Message, t: State, ack: bool) {
    match m
    case Run(a) => if ack then RunRight(c, s, a, t) else RefusedRight(c, s, a, t)
    case Suspend =>
      ack && t == if s.running == SUSPENDED then s
                  else s.(prevState := s.running, running := SUSPENDED, timeout := c.checkInterval)
    case Resume => ack && if s.running == SUSPENDED then t == s.(prevState := 0, running := IDLE) else t == s
    case Stop =>
      ack && if s.running == MANUAL || s.running == SUSPENDED then t == s.(running := IDLE, timeout := c.checkInterval)
        else t == s
    case Shutdown => ack && t == s.(shutdown := true)
    case Reload(file) => if file.None? then !ack && t == s else ack && ReloadRight(s, file.value, t)
    case ShortRun => !ack && t == s
    case Other => t == s
  }

  /** A reload takes over the configuration and its ordinary speed, and nothing else; segments keep their size. */
  ghost predicate ReloadRight(s: State, c: Config, t: State) {
    && t.config.perSegment == s.config.perSegment && t.config == c.(perSegment := t.config.perSegment)
    && (t.ncleansegs, t.interval, t.minBlocks) == (c.nsegs, c.interval, c.minBlocks)
    && t == s.(config := t.config, ncleansegs := t.ncleansegs, interval := t.interval, minBlocks := t.minBlocks)
  }

  lemma {:induction false} MessageAchieves(c: Config, s: State, m: Message)
    ensures MessageRight(c, s, m, Handle(c, s, m).0, Handle(c, s, m).1)
  {
    hide CmdRun, RunRight, RefusedRight;
    if m.Run? {
      RunAchieves(c, s, m.args);
    }
  }

  // ----- a whole pass, with signals and a message -----

  /** The state before and after the pass, with one after the signals and one before the message. */
  ghost predicate StepRight(s: State, i: Input, t: State, selected: bool) {
    exists s1: State, t1: State ::
      && (if i.hangup.Some? then ReloadRight(s, i.hangup.value, s1) else s1 == s)
      && PassRight(s1.config, s1, i, t1, selected)
      && if i.message.None? then t == t1 else exists ack :: MessageRight(s1.config, t1, i.message.value, t, ack)
  }

  lemma {:induction false} StepAchieves(s: State, i: Input)
    requires KnownState(s) && !Step(s, i).failed
    ensures StepRight(s, i, Step(s, i).state, Step(s, i).selected)
  {
    hide Pass, PassRight, MessageRight, ReloadRight, Handle, KnownState;
    var s1 := Signalled(s, i.hangup);
    var quiet := i.(message := None);
    SignalKeeps(s, i.hangup);
    ReloadAchieves(s, i.hangup);
    MessageLast(s1.config, s1, i);
    var t1 := Pass(s1.config, s1, quiet).state;
    PassAchieves(s1.config, s1, quiet);
    SameInput(s1.config, s1, i, t1, Step(s, i).selected);
    if i.message.Some? {
      MessageAchieves(s1.config, t1, i.message.value);
    }
  }

  lemma {:induction false} ReloadAchieves(s: State, hangup: Option<Config>)
    ensures var t := Signalled(s, hangup); if hangup.Some? then ReloadRight(s, hangup.value, t) else t == s
  {
  }

  /** What a pass achieves does not depend on its message. */
  lemma {:induction false} SameInput(c: Config, s: State, i: Input, t: State, selected: bool)
    requires PassRight(c, s, i.(message := None), t, selected)
    ensures PassRight(c, s, i, t, selected)
  {
  }
}
