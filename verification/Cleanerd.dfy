/** The cleaner daemon: the object whose fields the loop and the commands change. */
module Cleanerd {
  import opened Wrappers
  import opened CleanerState
  import opened CleanerPass

  /** struct nilfs_cleanerd */
  class Cleaner {
    var config: Config
    var running: int
    var fallback: bool
    var retryCleaning: bool
    var noTimeout: bool
    var shutdown: bool
    var ncleansegs: nat
    var cleaningInterval: int
    var minReclaimable: nat
    var target: int
    var timeout: int
    var prevCtime: int
    var jobid: nat
    var mmPrevState: int
    var mmNrestpasses: nat
    var mmNrestsegs: nat
    var mmNcleansegs: nat
    var mmProtection: int
    var mmInterval: int
    var mmMinReclaimable: nat

    function Now(): State
      reads this
    {
      State(config, running, fallback, retryCleaning, noTimeout, shutdown, ncleansegs, cleaningInterval, minReclaimable,
            target, timeout,
            prevCtime, jobid, mmPrevState, mmNrestpasses, mmNrestsegs, mmNcleansegs, mmProtection, mmInterval,
              mmMinReclaimable)
    }

    /** The start of nilfs_cleanerd_clean_loop, at the monotonic time `now`. */
    constructor (config: Config, now: int)
      ensures this.config == config && KnownState(Now()) && Now().running != MANUAL && !Now().fallback &&
              !Now().shutdown
      ensures var sleeps := config.minClean > 0;
              Now() == State(config, if sleeps then IDLE else AUTOMATIC, false, false, false, false, config.nsegs,
                             config.interval, config.minBlocks, now + config.interval,
                             if sleeps then config.checkInterval else 0, 0, 0, 0, 0, 0, 0, 0, 0, 0)
    {
      this.config := config;
      running, fallback, retryCleaning, noTimeout, shutdown := AUTOMATIC, false, false, false, false;
      target, timeout := now + config.interval, 0;
      ncleansegs, cleaningInterval, minReclaimable := config.nsegs, config.interval, config.minBlocks;
      prevCtime, jobid, mmPrevState, mmNrestpasses, mmNrestsegs := 0, 0, 0, 0, 0;
      mmNcleansegs, mmProtection, mmInterval, mmMinReclaimable := 0, 0, 0, 0;
      new;
      if config.minClean > 0 {
        CleanCheckPause();
      }
    }

    /** nilfs_cleanerd_clean_check_pause, _manual_end and _manual_stop, which differ in what they log */
    method CleanCheckPause()
      modifies `running, `timeout
      ensures Now() == Pause(config, old(Now()))
    {
      running := IDLE;
      timeout := config.checkInterval;
    }

    method HandleCleanCheck(u: Sustat) returns (sleep: bool)
      modifies `running, `timeout, `ncleansegs, `cleaningInterval, `minReclaimable
      ensures (Now(), sleep) == CleanCheck(config, old(Now()), u)
      ensures old(running) == IDLE ==> (sleep <==> Roomy(config, u))
      ensures old(running) == AUTOMATIC ==> (sleep <==> u.clean > config.maxClean + u.reserved)
      ensures sleep ==> running == IDLE
    {
      if running == AUTOMATIC {
        if u.clean > config.maxClean + u.reserved {
          CleanCheckPause();
          return true;
        }
      } else if running == IDLE {
        if u.clean < config.minClean + u.reserved {
          running := AUTOMATIC;
        } else {
          return true;
        }
      }
      if u.clean < config.minClean + u.reserved {
        ncleansegs, cleaningInterval, minReclaimable := config.mcNsegs, config.mcInterval, config.mcMinBlocks;
      } else {
        ncleansegs, cleaningInterval, minReclaimable := config.nsegs, config.interval, config.minBlocks;
      }
      return false;
    }

    method HandleManualMode(inuse: int)
      modifies `running, `timeout, `mmNrestpasses, `mmNrestsegs
      ensures Now() == ManualMode(config, old(Now()), inuse)
    {
      if mmNrestsegs == 0 {
        if mmNrestpasses > 0 {
          if inuse < 0 {
            mmNrestpasses := 0;
          } else {
            mmNrestpasses := mmNrestpasses - 1;
            mmNrestsegs := inuse;
          }
        }
      }
      if mmNrestpasses == 0 && mmNrestsegs == 0 {
        CleanCheckPause();
      }
    }

    method Check(u: Sustat, inuse: int) returns (sleep: bool)
      modifies `running, `timeout, `ncleansegs, `cleaningInterval, `minReclaimable, `mmNrestpasses, `mmNrestsegs,
        `prevCtime
      ensures (Now(), sleep) == CheckState(config, old(Now()), u, inuse)
    {
      hide ManualMode, CleanCheck;
      if running < 0 {
        return true;
      }
      if running == MANUAL {
        HandleManualMode(inuse);
      }
      if running < MANUAL && config.minClean > 0 {
        sleep := HandleCleanCheck(u);
        if sleep {
          return;
        }
      }
      if running == IDLE {
        if u.ctime != prevCtime {
          running := AUTOMATIC;
          prevCtime := u.ctime;
        } else {
          return true;
        }
      }
      return false;
    }

    /** nilfs_cleanerd_reconfig; a file that cannot be read leaves everything as it is. */
    method Reconfig(file: Option<Config>) returns (ok: bool)
      modifies `config, `ncleansegs, `cleaningInterval, `minReclaimable
      ensures ok <==> file.Some?
      ensures Now() == if ok then Reconfigure(old(Now()), file.value) else old(Now())
    {
      if file.None? {
        return false;
      }
      config := file.value.(perSegment := config.perSegment);
      ncleansegs, cleaningInterval, minReclaimable := config.nsegs, config.interval, config.minBlocks;
      return true;
    }

    method NoteProgress(nsegs: nat)
      modifies `mmNrestsegs
      ensures Now() == Progress(old(Now()), nsegs)
    {
      if running == MANUAL {
        mmNrestsegs := if mmNrestsegs - nsegs > 0 then mmNrestsegs - nsegs else 0;
      }
    }

    method ReduceNcleansegsForRetry()
      modifies `ncleansegs, `mmNcleansegs
      ensures Now() == Reduce(old(Now())) && InUse(Now()) == old(InUse(Now()))
    {
      if running == MANUAL {
        if ncleansegs > 1 {
          ncleansegs := ncleansegs / 2;
        }
      } else {
        if mmNcleansegs > 1 {
          mmNcleansegs := mmNcleansegs / 2;
        }
      }
    }

    method Clean(answer: Answer) returns (ndone: nat, failed: bool)
      modifies `ncleansegs, `mmNcleansegs, `mmNrestsegs, `fallback, `retryCleaning, `noTimeout
      ensures (Now(), ndone, failed) == CleanSegments(old(Now()), answer)
    {
      hide Counted, Reduce;
      ndone, failed := 0, false;
      match answer
      case Failure =>
        failed := true;
      case NoMemory =>
        ReduceNcleansegsForRetry();
        fallback := true;
      case Done(cleaned, deferred, still, shrunk) =>
        ndone := CountDone(cleaned, deferred);
        if ndone == 0 {
          if !retryCleaning && still && shrunk {
            retryCleaning := true;
          } else {
            retryCleaning := false;
          }
        }
    }

    /** Segments that were cleaned or deferred: the run makes progress. */
    method CountDone(cleaned: nat, deferred: nat) returns (ndone: nat)
      modifies `mmNrestsegs, `fallback, `retryCleaning, `noTimeout
      ensures Now() == Counted(old(Now()), cleaned, deferred) && ndone == cleaned + deferred
    {
      ndone := 0;
      if cleaned > 0 {
        NoteProgress(cleaned);
        fallback, retryCleaning := false, false;
        ndone := ndone + cleaned;
      }
      if deferred > 0 {
        NoteProgress(deferred);
        fallback, retryCleaning := false, false;
        if cleaned == 0 {
          noTimeout := true;
        }
        ndone := ndone + deferred;
      }
    }

    /** The first half of nilfs_cleanerd_recalc_interval */
    method RecalcForMore(i: Input) returns (failed: bool)
      modifies `running, `timeout
      ensures (Now(), failed) == WaitForMore(config, old(Now()), i)
    {
      failed := false;
      var pt;
      if running == MANUAL {
        CleanCheckPause();
        return;
      } else if i.oldest == NULLTIME {
        if running != 0 {
          running := IDLE;
        }
        pt := Protection(config, Now());
      } else {
        if i.realTime.None? {
          return true;
        }
        var tgt := if i.oldest < i.realTime.value then i.oldest else i.realTime.value;
        pt := (if tgt > i.prottime then tgt - i.prottime + 1 else 1) * SECOND;
      }
      timeout := if pt < config.checkInterval then config.checkInterval else pt;
    }

    /** The second half */
    method RecalcForNext(i: Input) returns (failed: bool)
      modifies `timeout, `target
      ensures (Now(), failed) == WaitForNext(config, old(Now()), i)
    {
      failed := false;
      if i.monotonic.None? {
        return true;
      }
      var curr := i.monotonic.value;
      if fallback {
        target := curr + config.retryInterval;
        timeout := target - curr;
        return;
      }
      var interval := Interval(Now());
      if curr >= target || noTimeout {
        timeout := 0;
        target := curr + interval;
        return;
      }
      timeout := target - curr;
      target := target + interval;
    }

    method RecalcInterval(chosen: int, ndone: nat, i: Input) returns (failed: bool)
      modifies `running, `timeout, `target
      ensures (Now(), failed) == Recalc(config, old(Now()), chosen, ndone, i)
    {
      hide WaitForMore, WaitForNext;
      if chosen == 0 || (!fallback && ndone == 0 && !retryCleaning) {
        failed := RecalcForMore(i);
      } else {
        failed := RecalcForNext(i);
      }
    }

    /** The first half of nilfs_cleanerd_cmd_run */
    method TakeSpeed(a: RunArgs) returns (ok: bool)
      modifies `mmProtection, `mmNcleansegs, `mmInterval
      ensures (Now(), ok) == SetSpeed(config, old(Now()), a)
    {
      if a.protection.Some? {
        if a.protection.value > ULONG_MAX {
          return false;
        }
        mmProtection := a.protection.value * SECOND;
      } else {
        mmProtection := config.protection;
      }
      if a.nsegs.Some? {
        if a.nsegs.value == 0 || a.nsegs.value > NSEGMENTS_PER_CLEAN_MAX {
          return false;
        }
        mmNcleansegs := a.nsegs.value;
      } else {
        mmNcleansegs := ncleansegs;
      }
      mmInterval := if a.interval.Some? then a.interval.value else cleaningInterval;
      return true;
    }

    /** The second half */
    method TakeGoal(a: RunArgs) returns (ok: bool)
      modifies `mmMinReclaimable, `mmNrestpasses, `mmNrestsegs, `running, `jobid
      ensures (Now(), ok) == SetGoal(config, old(Now()), a)
    {
      hide MinBlocks;
      var blocks := MinBlocks(config, Now(), a.minBlocks);
      if blocks.None? {
        return false;
      }
      mmMinReclaimable := blocks.value;
      if a.npasses.Some? {
        if a.npasses.value == 0 {
          return false;
        }
        mmNrestpasses, mmNrestsegs := a.npasses.value, 0;
      } else {
        mmNrestpasses, mmNrestsegs := 1, 0;
      }
      running := MANUAL;
      jobid := jobid + 1;
      return true;
    }

    /** nilfs_cleanerd_cmd_run */
    method Command(a: RunArgs) returns (ok: bool)
      modifies this
      ensures (Now(), ok) == CmdRun(config, old(Now()), a) && config == old(config)
    {
      hide SetSpeed, SetGoal;
      ok := TakeSpeed(a);
      if ok {
        ok := TakeGoal(a);
      }
    }

    /** nilfs_cleanerd_handle_message and the other commands */
    method HandleMessage(m: Message) returns (ack: bool)
      modifies this
      ensures (Now(), ack) == Handle(old(config), old(Now()), m)
      ensures MessageRight(old(config), old(Now()), m, Now(), ack)
    {
      hide CmdRun, MessageRight;
      MessageAchieves(config, Now(), m);
      ack := true;
      match m
      case Run(args) =>
        ack := Command(args);
      case ShortRun =>
        ack := false;
      case Suspend =>
        if running != SUSPENDED {
          mmPrevState := running;
          running := SUSPENDED;
          timeout := config.checkInterval;
        }
      case Resume =>
        if running == SUSPENDED {
          mmPrevState := 0;
          running := mmPrevState;
        }
      case Stop =>
        if running == MANUAL || running == SUSPENDED {
          CleanCheckPause();
        }
      case Shutdown =>
        shutdown := true;
      case Reload(file) =>
        ack := Reconfig(file);
      case Other =>
    }

    /** One pass of the loop of nilfs_cleanerd_clean_loop, up to and including the wait. */
    method LoopPass(i: Input) returns (selected: bool, failed: bool)
      modifies this
      ensures Outcome(Now(), selected, failed) == Step(old(Now()), i)
      ensures KnownState(old(Now())) && !failed ==> StepRight(old(Now()), i, Now(), selected)
      ensures FailsRight(i, selected, failed)
    {
      hide Pass, Reconfigure, StepRight, KnownState, FailsRight;
      PassFails(Current(Now(), i), Signalled(Now(), i.hangup), i);
      if KnownState(Now()) && !Step(Now(), i).failed {
        StepAchieves(Now(), i);
      }
      var reloaded := Reconfig(i.hangup);
      selected, failed := AfterSignals(i);
    }

    /** The same after the signals have been handled. */
    method AfterSignals(i: Input) returns (selected: bool, failed: bool)
      modifies this
      ensures Outcome(Now(), selected, failed) == Pass(old(config), old(Now()), i)
    {
      hide CheckState, CleanSegments, Recalc, Handle;
      noTimeout := false;
      selected, failed := false, false;
      var sleep := Check(i.usage, i.inuse);
      if !sleep {
        selected := true;
        if i.chosen < 0 {
          failed := true;
          return;
        }
        var ndone := 0;
        if i.chosen > 0 {
          ndone, failed := Clean(i.answer);
          if failed {
            return;
          }
        } else {
          retryCleaning := false;
        }
        failed := RecalcInterval(i.chosen, ndone, i);
        if failed {
          return;
        }
      }
      if i.message.Some? {
        var ack := HandleMessage(i.message.value);
      }
    }

    /** The loop, for the passes that the inputs stand for; it ends at a shutdown or a failure. */
    method CleanLoop(inputs: nat -> Input, count: nat) returns (n: nat, failed: bool)
      modifies this
      ensures n <= count
      ensures Now() == StateAt(old(Now()), inputs, n)
      ensures failed ==> n > 0 && Unfailed(old(Now()), inputs, n - 1) && !Unfailed(old(Now()), inputs, n)
      ensures !failed ==> Unfailed(old(Now()), inputs, n)
      ensures forall k: nat :: k < n ==> !StateAt(old(Now()), inputs, k).shutdown
      ensures n < count && !failed ==> shutdown
      ensures old(running) == SUSPENDED && Unwoken(old(config.perSegment), inputs, n) ==>
                !failed && running == SUSPENDED && Selections(old(Now()), inputs, n) == 0
      ensures AtRest(old(Now())) && RoomyFor(old(Now()), inputs, n) ==>
                !failed && AtRest(Now()) && Selections(old(Now()), inputs, n) == 0
      ensures old(running) == MANUAL && !old(fallback) && CalmFor(old(config.perSegment), inputs, n) && n > 0 ==>
                failed || running != MANUAL || (!fallback && Smaller(Now(), old(Now())))
    {
      hide Step, Unwoken, RoomyFor, CalmFor, Smaller, AtRest;
      ghost var start := Now();
      n, failed := 0, false;
      while !shutdown && n < count
        invariant n <= count
        invariant Now() == StateAt(start, inputs, n)
        invariant forall k: nat :: k < n ==> !StateAt(start, inputs, k).shutdown
        invariant !failed && Unfailed(start, inputs, n)
      {
        var selected;
        selected, failed := LoopPass(inputs(n));
        n := n + 1;
        if failed {
          break;
        }
      }
      if start.running == SUSPENDED && Unwoken(start.config.perSegment, inputs, n) {
        SuspendedStays(start, inputs, n);
      }
      if AtRest(start) && RoomyFor(start, inputs, n) {
        RestStays(start, inputs, n);
      }
      if start.running == MANUAL && !start.fallback && CalmFor(start.config.perSegment, inputs, n) && n > 0 && !failed {
        ManualProgress(start, inputs, n);
      }
    }
  }
}
