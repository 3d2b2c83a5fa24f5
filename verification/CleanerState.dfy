/** The state machine of the cleaner daemon: what one pass of its loop does, and what whole runs keep. */
module CleanerState {
  import opened Wrappers

  const NULLTIME: int := 0x7FFF_FFFF_FFFF_FFFF
  const SECOND: int := 1_000_000_000
  const NSEGMENTS_PER_CLEAN_MAX: nat := 32
  const MIN_NRSVSEGS: nat := 8

  // the values of `running`
  const SUSPENDED: int := -1
  const IDLE: int := 0
  const AUTOMATIC: int := 1
  const MANUAL: int := 2

  /** The configuration; times are in nanoseconds. */
  datatype Config = Config(
    protection: int, minClean: nat, maxClean: nat, checkInterval: int, retryInterval: int,
    nsegs: nat, interval: int, minBlocks: nat,
    mcNsegs: nat, mcInterval: int, mcMinBlocks: nat,
    perSegment: nat)

  datatype State = State(
    config: Config, running: int, fallback: bool, retry: bool, noTimeout: bool, shutdown: bool,
    ncleansegs: nat, interval: int, minBlocks: nat, target: int, timeout: int,
    prevCtime: int, jobid: nat,
    prevState: int, passes: nat, segs: nat, mmNsegs: nat, mmProtection: int, mmInterval: int, mmMinBlocks: nat)

  /** Segment usage statistics, with the number of reserved segments. */
  datatype Sustat = Sustat(clean: nat, reserved: nat, ctime: int)

  /** What happens in a call of clean_segments: the ways it fails, or how many segments were cleaned and deferred. */
  datatype Answer = NoMemory | Failure | Done(cleaned: nat, deferred: nat, still: bool, shrunk: bool)

  datatype Unit = Blocks | Percent | Unknown

  datatype RunArgs = RunArgs(
    protection: Option<nat>, nsegs: Option<nat>, interval: Option<int>, minBlocks: Option<(nat, Unit)>,
      npasses: Option<nat>)

  datatype Message = Run(args: RunArgs) | ShortRun | Suspend | Resume | Stop | Shutdown
    | Reload(config: Option<Config>) | Other

  /**
   What the surroundings contribute to one pass of the loop; `hangup` is the configuration that is read
   after a hangup signal, if there was one and the file can be read.
   */
  datatype Input = Input(
    hangup: Option<Config>, usage: Sustat, inuse: int, chosen: int, answer: Answer,
    prottime: int, oldest: int, realTime: Option<int>, monotonic: Option<int>, message: Option<Message>)

  // ----- the operations -----

  function Pause(c: Config, s: State): State { s.(running := IDLE, timeout := c.checkInterval) }

  /** nilfs_cleanerd_handle_clean_check; true means to sleep. */
  function CleanCheck(c: Config, s: State, u: Sustat): (State, bool) {
    var low := u.clean < c.minClean + u.reserved;
    if s.running == AUTOMATIC && u.clean > c.maxClean + u.reserved then (Pause(c, s), true)
    else if s.running == IDLE && !low then (s, true)
    else
      var s1 := if s.running == IDLE then s.(running := AUTOMATIC) else s;
      if low then (s1.(ncleansegs := c.mcNsegs, interval := c.mcInterval, minBlocks := c.mcMinBlocks), false)
      else (s1.(ncleansegs := c.nsegs, interval := c.interval, minBlocks := c.minBlocks), false)
  }

  /** nilfs_cleanerd_handle_manual_mode; a negative count is an error. */
  function ManualMode(c: Config, s: State, inuse: int): State {
    var s1 := if s.segs == 0 && s.passes > 0
              then if inuse < 0 then s.(passes := 0) else s.(passes := s.passes - 1, segs := inuse)
              else s;
    if s1.passes == 0 && s1.segs == 0 then Pause(c, s1) else s1
  }

  /** nilfs_cleanerd_check_state; true means to sleep. */
  function CheckState(c: Config, s: State, u: Sustat, inuse: int): (State, bool) {
    if s.running < 0 then (s, true)
    else
      var s1 := if s.running == MANUAL then ManualMode(c, s, inuse) else s;
      var (s2, sleep) := if s1.running < MANUAL && c.minClean > 0 then CleanCheck(c, s1, u) else (s1, false);
      if sleep then (s2, true)
      else if s2.running == IDLE then
        if u.ctime != s2.prevCtime then (s2.(running := AUTOMATIC, prevCtime := u.ctime), false) else (s2, true)
      else (s2, false)
  }

  /** nilfs_cleanerd_progress */
  function Progress(s: State, nsegs: nat): State {
    if s.running == MANUAL then s.(segs := if nsegs <= s.segs then s.segs - nsegs else 0) else s
  }

  /** nilfs_cleanerd_reduce_ncleansegs_for_retry, as written: it halves the number that is not in use. */
  function Reduce(s: State): State {
    if s.running == MANUAL then (if s.ncleansegs > 1 then s.(ncleansegs := s.ncleansegs / 2) else s)
    else (if s.mmNsegs > 1 then s.(mmNsegs := s.mmNsegs / 2) else s)
  }

  /** nilfs_cleanerd_ncleansegs: the number of segments per cycle that is in use. */
  function InUse(s: State): nat { if s.running == MANUAL then s.mmNsegs else s.ncleansegs }

  /** Progress by cleaned and by deferred segments. */
  function Counted(s: State, cleaned: nat, deferred: nat): State {
    var s1 := if cleaned > 0 then Progress(s, cleaned).(fallback := false, retry := false) else s;
    if deferred > 0 then
      Progress(s1, deferred).(fallback := false, retry := false, noTimeout := s1.noTimeout || cleaned == 0)
    else s1
  }

  /** nilfs_cleanerd_clean_segments: the new state, the number of segments done with, and whether it failed. */
  function CleanSegments(s: State, a: Answer): (State, nat, bool) {
    match a
    case Failure => (s, 0, true)
    case NoMemory => (Reduce(s).(fallback := true), 0, false)
    case Done(cleaned, deferred, still, shrunk) =>
      var s1 := Counted(s, cleaned, deferred);
      if cleaned + deferred == 0 then (s1.(retry := !s1.retry && still && shrunk), 0, false)
        else (s1, cleaned + deferred, false)
  }

  function Protection(c: Config, s: State): int { if s.running == MANUAL then s.mmProtection else c.protection }

  function Interval(s: State): int { if s.running == MANUAL then s.mmInterval else s.interval }

  function Later(a: int, b: int): int { if a < b then b else a }

  /** The first half of nilfs_cleanerd_recalc_interval: nothing was cleaned, and nothing is to be retried. */
  function WaitForMore(c: Config, s: State, i: Input): (State, bool) {
    if s.running == MANUAL then (Pause(c, s), false)
    else if i.oldest == NULLTIME then
      var s1 := s.(running := IDLE);
      (s1.(timeout := Later(Protection(c, s1), c.checkInterval)), false)
    else match i.realTime
      case None => (s, true)
      case Some(now) =>
        var tgt := if i.oldest < now then i.oldest else now;
        var pt := if tgt > i.prottime then tgt - i.prottime + 1 else 1;
        (s.(timeout := Later(pt * SECOND, c.checkInterval)), false)
  }

  /** The second half: the next time to clean. */
  function WaitForNext(c: Config, s: State, i: Input): (State, bool) {
    match i.monotonic
    case None => (s, true)
    case Some(now) =>
      if s.fallback then (s.(target := now + c.retryInterval, timeout := c.retryInterval), false)
      else if now >= s.target || s.noTimeout then (s.(timeout := 0, target := now + Interval(s)), false)
      else (s.(timeout := s.target - now, target := s.target + Interval(s)), false)
  }

  /** nilfs_cleanerd_recalc_interval; true means that a clock failed. */
  function Recalc(c: Config, s: State, chosen: int, ndone: nat, i: Input): (State, bool) {
    if chosen == 0 || (!s.fallback && ndone == 0 && !s.retry) then WaitForMore(c, s, i) else WaitForNext(c, s, i)
  }

  /**
   nilfs_cleanerd_reconfig, with the configuration from a file that can be read; it does not set the size
   of segments.
   */
  function Reconfigure(s: State, c: Config): State {
    s.(config := c.(perSegment := s.config.perSegment), ncleansegs := c.nsegs, interval := c.interval,
       minBlocks := c.minBlocks)
  }

  // ----- messages -----

  /** The minimum number of reclaimable blocks that a run command asks for, if it is valid. */
  function MinBlocks(c: Config, s: State, wanted: Option<(nat, Unit)>): Option<nat> {
    match wanted
    case None => Some(s.minBlocks)
    case Some((n, Blocks)) => if n > c.perSegment then None else Some(n)
    case Some((n, Percent)) => if n > 100 then None else Some((n * c.perSegment + 99) / 100)
    case Some((_, Unknown)) => None
  }

  const ULONG_MAX: nat := 0xFFFF_FFFF_FFFF_FFFF

  /** The first half of nilfs_cleanerd_cmd_run: period and speed. */
  function SetSpeed(c: Config, s: State, a: RunArgs): (State, bool) {
    if a.protection.Some? && a.protection.value > ULONG_MAX then (s, false)
    else
      var s1 := s.(mmProtection := if a.protection.Some? then a.protection.value * SECOND else c.protection);
      if a.nsegs.Some? && (a.nsegs.value == 0 || a.nsegs.value > NSEGMENTS_PER_CLEAN_MAX) then (s1, false)
      else
        (s1.(mmNsegs := if a.nsegs.Some? then a.nsegs.value else s1.ncleansegs,
             mmInterval := if a.interval.Some? then a.interval.value else s1.interval), true)
  }

  /** The second half: how much to gain, and how many passes; then the run starts. */
  function SetGoal(c: Config, s: State, a: RunArgs): (State, bool) {
    var blocks := MinBlocks(c, s, a.minBlocks);
    if blocks.None? then (s, false)
    else
      var s1 := s.(mmMinBlocks := blocks.value);
      if a.npasses == Some(0) then (s1, false)
      else (s1.(passes := if a.npasses.Some? then a.npasses.value else 1, segs := 0, running := MANUAL,
                jobid := s1.jobid + 1), true)
  }

  /** nilfs_cleanerd_cmd_run: the fields are set one by one until an argument is refused. */
  function CmdRun(c: Config, s: State, a: RunArgs): (State, bool) {
    var (s1, ok) := SetSpeed(c, s, a);
    if !ok then (s1, false) else SetGoal(c, s1, a)
  }

  /** nilfs_cleanerd_handle_message; true means that the message is acknowledged. */
  function Handle(c: Config, s: State, m: Message): (State, bool) {
    match m
    case Run(a) => CmdRun(c, s, a)
    case ShortRun => (s, false)
    case Suspend =>
      (if s.running == SUSPENDED then s
       else s.(prevState := s.running, running := SUSPENDED, timeout := c.checkInterval), true)
    case Resume => (if s.running == SUSPENDED then s.(prevState := 0, running := 0) else s, true)
    case Stop => (if s.running == MANUAL || s.running == SUSPENDED then Pause(c, s) else s, true)
    case Shutdown => (s.(shutdown := true), true)
    case Reload(config) => if config.Some? then (Reconfigure(s, config.value), true) else (s, false)
    case Other => (s, true)
  }

  // ----- one pass of the loop -----

  /** The state after a pass, whether segments were selected in it, and whether the daemon gave up. */
  datatype Outcome = Outcome(state: State, selected: bool, failed: bool)

  function Receive(c: Config, s: State, m: Option<Message>): State {
    match m
    case None => s
    case Some(msg) => Handle(c, s, msg).0
  }

  /** One pass of the loop of nilfs_cleanerd_clean_loop, after the signals have been handled. */
  function Pass(c: Config, s: State, i: Input): Outcome {
    var s0 := s.(noTimeout := false);
    var (s1, sleep) := CheckState(c, s0, i.usage, i.inuse);
    if sleep then Outcome(Receive(c, s1, i.message), false, false)
    else if i.chosen < 0 then Outcome(s1, true, true)
    else
      var (s2, ndone, failed) := if i.chosen > 0 then CleanSegments(s1, i.answer) else (s1.(retry := false), 0, false);
      if failed then Outcome(s2, true, true)
      else
        var (s3, clockFailed) := Recalc(c, s2, i.chosen, ndone, i);
        if clockFailed then Outcome(s3, true, true)
        else Outcome(Receive(c, s3, i.message), true, false)
  }

  /** nilfs_cleanerd_handle_signals */
  function Signalled(s: State, hangup: Option<Config>): State {
    if hangup.Some? then Reconfigure(s, hangup.value) else s
  }

  /** A whole pass, with the configuration of the moment. */
  function Step(s: State, i: Input): Outcome {
    var s1 := Signalled(s, i.hangup);
    Pass(s1.config, s1, i)
  }

  /** The state before pass n, given the inputs of the passes, as long as nothing fails. */
  function StateAt(s: State, inputs: nat -> Input, n: nat): State {
    if n == 0 then s else Step(StateAt(s, inputs, n - 1), inputs(n - 1)).state
  }

  // ----- what every run keeps -----

  ghost predicate KnownState(s: State) {
    s.running == SUSPENDED || s.running == IDLE || s.running == AUTOMATIC || s.running == MANUAL
  }

  lemma {:induction false} CheckKeepsKnown(c: Config, s: State, u: Sustat, inuse: int)
    ensures var t := CheckState(c, s, u, inuse).0; t.config == s.config && (KnownState(s) ==> KnownState(t))
  {
    hide ManualMode, CleanCheck;
    ManualModeKnown(c, s, inuse);
    CleanCheckKnown(c, s, u);
    CleanCheckKnown(c, ManualMode(c, s, inuse), u);
  }

  lemma {:induction false} ManualModeKnown(c: Config, s: State, inuse: int)
    ensures var t := ManualMode(c, s, inuse); t.config == s.config && (t.running == s.running || t.running == IDLE)
  {
  }

  lemma {:induction false} CleanCheckKnown(c: Config, s: State, u: Sustat)
    ensures var t := CleanCheck(c, s, u).0;
            t.config == s.config && (t.running == s.running || t.running == IDLE || t.running == AUTOMATIC)
  {
  }

  lemma {:induction false} CleanKeepsKnown(s: State, a: Answer)
    ensures var t := CleanSegments(s, a).0; t.config == s.config && t.running == s.running
  {
  }

  lemma {:induction false} RecalcKeepsKnown(c: Config, s: State, chosen: int, ndone: nat, i: Input)
    ensures var t := Recalc(c, s, chosen, ndone, i).0; t.config == s.config && (KnownState(s) ==> KnownState(t))
  {
  }

  lemma {:induction false} ReceiveKeepsKnown(c: Config, s: State, m: Option<Message>)
    ensures var t := Receive(c, s, m); t.config.perSegment == s.config.perSegment && (KnownState(s) ==> KnownState(t))
  {
    hide CmdRun;
    if m.Some? && m.value.Run? {
      RunKeepsKnown(c, s, m.value.args);
    }
  }

  lemma {:induction false} RunKeepsKnown(c: Config, s: State, a: RunArgs)
    ensures var t := CmdRun(c, s, a).0; t.config == s.config && (t.running == s.running || t.running == MANUAL)
  {
    hide MinBlocks;
  }

  lemma {:induction false} PassKeepsKnown(c: Config, s: State, i: Input)
    ensures var t := Pass(c, s, i).state;
            t.config.perSegment == s.config.perSegment && (KnownState(s) ==> KnownState(t))
  {
    hide CheckState, CleanSegments, Recalc, Receive;
    var (s1, sleep) := CheckState(c, s.(noTimeout := false), i.usage, i.inuse);
    CheckKeepsKnown(c, s.(noTimeout := false), i.usage, i.inuse);
    ReceiveKeepsKnown(c, s1, i.message);
    CleanKeepsKnown(s1, i.answer);
    var (s2, ndone, failed) := if i.chosen > 0 then CleanSegments(s1, i.answer) else (s1.(retry := false), 0, false);
    RecalcKeepsKnown(c, s2, i.chosen, ndone, i);
    ReceiveKeepsKnown(c, Recalc(c, s2, i.chosen, ndone, i).0, i.message);
  }

  /** `running` never leaves its four values, and no reload changes the size of segments. */
  lemma {:induction false} AlwaysKnown(s: State, inputs: nat -> Input, n: nat)
    ensures KnownState(s) ==> KnownState(StateAt(s, inputs, n))
    ensures StateAt(s, inputs, n).config.perSegment == s.config.perSegment
  {
    hide KnownState, Pass;
    if n > 0 {
      AlwaysKnown(s, inputs, n - 1);
      var s1 := Signalled(StateAt(s, inputs, n - 1), inputs(n - 1).hangup);
      assert KnownState(StateAt(s, inputs, n - 1)) ==> KnownState(s1) by {
        SignalKeeps(StateAt(s, inputs, n - 1), inputs(n - 1).hangup);
      }
      PassKeepsKnown(s1.config, s1, inputs(n - 1));
    }
  }

  /** What a reload of the configuration leaves alone. */
  lemma {:induction false} SignalKeeps(s: State, hangup: Option<Config>)
    ensures var t := Signalled(s, hangup);
            && (t.running, t.fallback, t.retry, t.passes, t.segs) == (s.running, s.fallback, s.retry, s.passes, s.segs)
            && t.config.perSegment == s.config.perSegment && (KnownState(s) ==> KnownState(t))
  {
  }

  /** All arguments of the run command are in range. */
  predicate ValidRun(perSegment: nat, a: RunArgs) {
    && (a.protection.Some? ==> a.protection.value <= ULONG_MAX)
    && (a.nsegs.Some? ==> 1 <= a.nsegs.value <= NSEGMENTS_PER_CLEAN_MAX)
    && (match a.minBlocks
        case None => true
        case Some((n, Blocks)) => n <= perSegment
        case Some((n, Percent)) => n <= 100
        case Some((_, Unknown)) => false)
    && a.npasses != Some(0)
  }

  /** A run command starts a manual run just when all its arguments are valid; otherwise it starts nothing. */
  lemma {:induction false} RunStarts(c: Config, s: State, a: RunArgs)
    ensures var (t, ok) := CmdRun(c, s, a);
            && (ok <==> ValidRun(c.perSegment, a))
            && (ok ==> t.running == MANUAL && t.segs == 0 && t.passes >= 1 && t.jobid == s.jobid + 1)
            && (!ok ==> (t.running, t.passes, t.segs, t.jobid, t.fallback, t.retry) == (s.running, s.passes, s.segs,
                s.jobid, s.fallback, s.retry))
  {
  }

  /** The message starts a manual run. */
  ghost predicate Starts(perSegment: nat, m: Option<Message>) {
    m.Some? && m.value.Run? && ValidRun(perSegment, m.value.args)
  }

  /** The message ends a suspension. */
  ghost predicate Wakes(perSegment: nat, m: Option<Message>) {
    m.Some? && (m.value.Resume? || m.value.Stop? || Starts(perSegment, m))
  }

  /** What a message that starts no manual run leaves alone. */
  lemma {:induction false} ReceiveKeeps(c: Config, s: State, m: Option<Message>)
    requires !Starts(c.perSegment, m)
    ensures var t := Receive(c, s, m);
            && (t.fallback, t.retry, t.passes, t.segs) == (s.fallback, s.retry, s.passes, s.segs)
            && (t.running == s.running || t.running == SUSPENDED ||
                (t.running == IDLE && (s.running == MANUAL || s.running == SUSPENDED)))
  {
    hide CmdRun;
    if m.Some? && m.value.Run? {
      RunStarts(c, s, m.value.args);
    }
  }

  /** A suspended daemon selects nothing, and stays suspended just when no message wakes it. */
  lemma {:induction false} SuspendedPass(c: Config, s: State, i: Input)
    requires s.running == SUSPENDED
    ensures !Pass(c, s, i).selected && !Pass(c, s, i).failed
    ensures Pass(c, s, i).state.running == SUSPENDED <==> !Wakes(c.perSegment, i.message)
  {
    hide CmdRun, ValidRun;
    if i.message.Some? && i.message.value.Run? {
      RunStarts(c, s.(noTimeout := false), i.message.value.args);
    }
  }

  /** The number of passes among the first n in which segments were selected. */
  function Selections(s: State, inputs: nat -> Input, n: nat): nat {
    if n == 0 then 0
    else Selections(s, inputs, n - 1) + (if Step(StateAt(s, inputs, n - 1), inputs(n - 1)).selected then 1 else 0)
  }

  /** None of the first n passes fails. */
  ghost predicate Unfailed(s: State, inputs: nat -> Input, n: nat) {
    n == 0 || (Unfailed(s, inputs, n - 1) && !Step(StateAt(s, inputs, n - 1), inputs(n - 1)).failed)
  }

  ghost predicate Unwoken(perSegment: nat, inputs: nat -> Input, n: nat) {
    forall k: nat :: k < n ==> !Wakes(perSegment, inputs(k).message)
  }

  /** However long no message wakes it, a suspended daemon selects no segments. */
  lemma {:induction false} SuspendedStays(s: State, inputs: nat -> Input, n: nat)
    requires s.running == SUSPENDED && Unwoken(s.config.perSegment, inputs, n)
    ensures StateAt(s, inputs, n).running == SUSPENDED && Selections(s, inputs, n) == 0 && Unfailed(s, inputs, n)
  {
    hide Pass, Wakes, Signalled;
    if n > 0 {
      SuspendedStays(s, inputs, n - 1);
      AlwaysKnown(s, inputs, n - 1);
      var t, i := StateAt(s, inputs, n - 1), inputs(n - 1);
      SignalKeeps(t, i.hangup);
      SuspendedPass(Signalled(t, i.hangup).config, Signalled(t, i.hangup), i);
    }
  }

  /** A resumed daemon is idle: the state from which it was suspended is forgotten. */
  lemma {:induction false} SuspendResume(c: Config, s: State)
    requires KnownState(s) && s.running != SUSPENDED
    ensures Handle(c, Handle(c, s, Suspend).0, Resume).0 ==
            s.(prevState := 0, running := IDLE, timeout := c.checkInterval)
  {
  }

  // ----- the clean check -----

  /** There are at least as many clean segments as at which an idle daemon stays idle. */
  ghost predicate Roomy(c: Config, u: Sustat) { u.clean >= c.minClean + u.reserved }

  /** With the clean check on, an idle daemon selects segments just when clean ones run short. */
  lemma {:induction false} IdlePass(c: Config, s: State, i: Input)
    requires s.running == IDLE && c.minClean > 0
    ensures Pass(c, s, i).selected <==> !Roomy(c, i.usage)
    ensures Roomy(c, i.usage) && !Starts(c.perSegment, i.message) ==>
              !Pass(c, s, i).failed && (Pass(c, s, i).state.running == IDLE || Pass(c, s, i).state.running == SUSPENDED)
  {
    hide Recalc, CleanSegments, Receive, Starts;
    if !Starts(c.perSegment, i.message) {
      ReceiveKeeps(c, s.(noTimeout := false), i.message);
    }
  }

  /** An automatic one pauses just when there are more clean segments than wanted. */
  lemma {:induction false} AutomaticPass(c: Config, s: State, i: Input)
    requires s.running == AUTOMATIC && c.minClean > 0
    ensures !Pass(c, s, i).selected <==> i.usage.clean > c.maxClean + i.usage.reserved
    ensures i.usage.clean > c.maxClean + i.usage.reserved && i.message.None? ==>
              Pass(c, s, i) == Outcome(s.(noTimeout := false, running := IDLE, timeout := c.checkInterval), false,
                                       false)
  {
    hide Recalc, CleanSegments;
  }

  /** The configuration of the pass. */
  function Current(s: State, i: Input): Config { Signalled(s, i.hangup).config }

  /**
   In each of the first n passes the clean check is on, clean segments do not run short, and no manual
   run is started.
   */
  ghost predicate RoomyFor(s: State, inputs: nat -> Input, n: nat) {
    n == 0 ||
    var i, c := inputs(n - 1), Current(StateAt(s, inputs, n - 1), inputs(n - 1));
    RoomyFor(s, inputs, n - 1) && c.minClean > 0 && Roomy(c, i.usage) && !Starts(c.perSegment, i.message)
  }

  ghost predicate AtRest(s: State) { s.running == IDLE || s.running == SUSPENDED }

  /** As long as clean segments do not run short and no manual run is started, a daemon at rest selects no segments. */
  lemma {:induction false} RestStays(s: State, inputs: nat -> Input, n: nat)
    requires AtRest(s) && RoomyFor(s, inputs, n)
    ensures AtRest(StateAt(s, inputs, n)) && Selections(s, inputs, n) == 0 && Unfailed(s, inputs, n)
  {
    hide Pass, Roomy, Starts, Signalled;
    if n > 0 {
      RestStays(s, inputs, n - 1);
      var t, i := StateAt(s, inputs, n - 1), inputs(n - 1);
      SignalKeeps(t, i.hangup);
      RestPass(Current(t, i), Signalled(t, i.hangup), i);
    }
  }

  lemma {:induction false} RestPass(c: Config, s: State, i: Input)
    requires c.minClean > 0 && AtRest(s) && Roomy(c, i.usage) && !Starts(c.perSegment, i.message)
    ensures !Pass(c, s, i).selected && !Pass(c, s, i).failed && AtRest(Pass(c, s, i).state)
  {
    hide Starts, CheckState, CleanSegments, Recalc, Receive;
    if s.running == IDLE {
      IdlePass(c, s, i);
    } else {
      SuspendedRest(c, s, i);
    }
  }

  lemma {:induction false} SuspendedRest(c: Config, s: State, i: Input)
    requires s.running == SUSPENDED && !Starts(c.perSegment, i.message)
    ensures !Pass(c, s, i).selected && !Pass(c, s, i).failed && AtRest(Pass(c, s, i).state)
  {
    hide Starts, CleanSegments, Recalc, Receive;
    ReceiveKeeps(c, s.(noTimeout := false), i.message);
  }

  /** Once there are more clean segments than wanted, an automatic daemon selects nothing until they run short. */
  lemma {:induction false} PausesUntilShort(s: State, inputs: nat -> Input, n: nat)
    requires s.running == AUTOMATIC && n > 0 && RoomyFor(s, inputs, n)
    requires inputs(0).usage.clean > Current(s, inputs(0)).maxClean + inputs(0).usage.reserved
    ensures AtRest(StateAt(s, inputs, n)) && Selections(s, inputs, n) == 0 && Unfailed(s, inputs, n)
  {
    hide Pass, Roomy, Starts, Signalled;
    if n == 1 {
      assert StateAt(s, inputs, 0) == s && Selections(s, inputs, 0) == 0;
      SignalKeeps(s, inputs(0).hangup);
      PausePass(Current(s, inputs(0)), Signalled(s, inputs(0).hangup), inputs(0));
    } else {
      PausesUntilShort(s, inputs, n - 1);
      var t, i := StateAt(s, inputs, n - 1), inputs(n - 1);
      SignalKeeps(t, i.hangup);
      RestPass(Current(t, i), Signalled(t, i.hangup), i);
    }
  }

  lemma {:induction false} PausePass(c: Config, s: State, i: Input)
    requires s.running == AUTOMATIC && c.minClean > 0 && i.usage.clean > c.maxClean + i.usage.reserved &&
             !Starts(c.perSegment, i.message)
    ensures !Pass(c, s, i).selected && !Pass(c, s, i).failed && AtRest(Pass(c, s, i).state)
  {
    hide Starts, CleanSegments, Recalc, Receive;
    ReceiveKeeps(c, Pause(c, s.(noTimeout := false)), i.message);
  }

  // ----- the retry -----

  /** As written, the halving for a retry never changes the number in use. */
  lemma {:induction false} HalvesTheOther(s: State)
    ensures InUse(Reduce(s)) == InUse(s)
    ensures var other := if s.running == MANUAL then s.ncleansegs else s.mmNsegs;
            other > 1 ==> Reduce(s) == if s.running == MANUAL then s.(ncleansegs := other / 2)
              else s.(mmNsegs := other / 2)
  {
  }

  // ----- manual runs -----

  /** Nothing disturbs the pass: no lack of memory, and no command that starts another run. */
  ghost predicate Calm(perSegment: nat, i: Input) { !i.answer.NoMemory? && !Starts(perSegment, i.message) }

  ghost predicate Smaller(t: State, s: State) {
    || t.passes < s.passes
    || (t.passes == s.passes && t.segs < s.segs)
    || (t.passes == s.passes && t.segs == s.segs && s.retry == false && t.retry == true)
  }

  lemma {:induction false} ManualModeKeeps(c: Config, s: State, inuse: int)
    requires s.running == MANUAL
    ensures var t := ManualMode(c, s, inuse);
            && t.fallback == s.fallback && t.retry == s.retry && (t.running == MANUAL || t.running == IDLE)
            && (t.running == MANUAL ==>
                (s.segs == 0 && t.passes < s.passes) || (s.segs > 0 && t.passes == s.passes && t.segs == s.segs))
  {
  }

  lemma {:induction false} CleanCheckKeeps(c: Config, s: State, u: Sustat)
    ensures var (t, _) := CleanCheck(c, s, u);
            t.fallback == s.fallback && t.retry == s.retry &&
              (s.running == IDLE ==> t.running == IDLE || t.running == AUTOMATIC)
  {
  }

  lemma {:induction false} ManualCheck(c: Config, s: State, u: Sustat, inuse: int)
    requires s.running == MANUAL
    ensures var (t, sleep) := CheckState(c, s, u, inuse);
            && t.fallback == s.fallback && t.retry == s.retry
            && (t.running == MANUAL ==>
                  !sleep && ((s.segs == 0 && t.passes < s.passes) ||
                             (s.segs > 0 && t.passes == s.passes && t.segs == s.segs)))
  {
    hide ManualMode, CleanCheck;
    ManualModeKeeps(c, s, inuse);
    CleanCheckKeeps(c, ManualMode(c, s, inuse), u);
  }

  lemma {:induction false} ManualClean(s: State, a: Answer)
    requires s.running == MANUAL && !s.fallback && !a.NoMemory?
    ensures var (t, ndone, failed) := CleanSegments(s, a);
            && t.running == MANUAL && !t.fallback && t.passes == s.passes && t.segs <= s.segs
            && (!failed && ndone == 0 ==> t.segs == s.segs && (t.retry ==> !s.retry))
            && (!failed && ndone > 0 && s.segs > 0 ==> t.segs < s.segs)
  {
  }

  lemma {:induction false} ManualRecalc(c: Config, s: State, chosen: int, ndone: nat, i: Input)
    requires s.running == MANUAL && !s.fallback
    ensures var (t, failed) := Recalc(c, s, chosen, ndone, i);
            && (t.fallback, t.retry, t.passes, t.segs) == (s.fallback, s.retry, s.passes, s.segs)
            && (t.running == MANUAL && !failed ==> chosen != 0 && (ndone > 0 || s.retry))
  {
  }

  /** Every pass of a manual run ends it, or brings it nearer to its end, whatever other messages arrive. */
  lemma {:induction false} ManualPass(c: Config, s: State, i: Input)
    requires s.running == MANUAL && !s.fallback && Calm(c.perSegment, i)
    ensures var o := Pass(c, s, i);
            o.failed || o.state.running != MANUAL || (!o.state.fallback && Smaller(o.state, s))
  {
    hide CheckState, CleanSegments, Recalc, Receive, Starts;
    var s0 := s.(noTimeout := false);
    var (s1, sleep) := CheckState(c, s0, i.usage, i.inuse);
    ManualCheck(c, s0, i.usage, i.inuse);
    if s1.running != MANUAL {
      EndedPass(c, s, i);
    } else {
      ManualClean(s1, i.answer);
      var (s2, ndone, failed) := if i.chosen > 0 then CleanSegments(s1, i.answer) else (s1.(retry := false), 0, false);
      ManualRecalc(c, s2, i.chosen, ndone, i);
      ReceiveKeeps(c, Recalc(c, s2, i.chosen, ndone, i).0, i.message);
    }
  }

  lemma {:induction false} NeverBecomesManual(s: State, a: Answer)
    ensures CleanSegments(s, a).0.running == s.running
  {
  }

  lemma {:induction false} RecalcNotManual(c: Config, s: State, chosen: int, ndone: nat, i: Input)
    requires s.running != MANUAL
    ensures Recalc(c, s, chosen, ndone, i).0.running != MANUAL
  {
  }

  /** A manual run that ends in the check of the state is not taken up again in the same pass. */
  lemma {:induction false} EndedPass(c: Config, s: State, i: Input)
    requires s.running == MANUAL && Calm(c.perSegment, i) &&
             CheckState(c, s.(noTimeout := false), i.usage, i.inuse).0.running != MANUAL
    ensures var o := Pass(c, s, i); o.failed || o.state.running != MANUAL
  {
    hide CheckState, CleanSegments, Recalc, Receive, Starts;
    var (s1, sleep) := CheckState(c, s.(noTimeout := false), i.usage, i.inuse);
    ReceiveKeeps(c, s1, i.message);
    NeverBecomesManual(s1, i.answer);
    var (s2, ndone, failed) := if i.chosen > 0 then CleanSegments(s1, i.answer) else (s1.(retry := false), 0, false);
    RecalcNotManual(c, s2, i.chosen, ndone, i);
    ReceiveKeeps(c, Recalc(c, s2, i.chosen, ndone, i).0, i.message);
  }

  /** The same for a whole pass, whatever configuration is read. */
  lemma {:induction false} ManualStep(s: State, i: Input)
    requires s.running == MANUAL && !s.fallback && Calm(s.config.perSegment, i)
    ensures var o := Step(s, i);
            o.failed || o.state.running != MANUAL || (!o.state.fallback && Smaller(o.state, s))
  {
    hide Pass, Calm, Signalled;
    var t := Signalled(s, i.hangup);
    SignalKeeps(s, i.hangup);
    ManualPass(t.config, t, i);
  }

  /** A manual run that is not disturbed comes to an end. */
  lemma {:induction false} ManualRunEnds(s: State, inputs: nat -> Input, from: nat) returns (n: nat)
    requires !StateAt(s, inputs, from).fallback
    requires forall k: nat :: k >= from ==> Calm(s.config.perSegment, inputs(k))
    ensures n >= from
    ensures var t := StateAt(s, inputs, n); t.running != MANUAL || Step(t, inputs(n)).failed
    decreases StateAt(s, inputs, from).passes, StateAt(s, inputs, from).segs, if StateAt(s, inputs, from).retry then 0
      else 1
  {
    hide Step, Calm;
    n := from;
    var t := StateAt(s, inputs, from);
    assert Calm(s.config.perSegment, inputs(from));
    if t.running == MANUAL && !Step(t, inputs(from)).failed {
      AlwaysKnown(s, inputs, from);
      ManualStep(t, inputs(from));
      assert StateAt(s, inputs, from + 1) == Step(t, inputs(from)).state;
      if StateAt(s, inputs, from + 1).running != MANUAL {
        n := from + 1;
      } else {
        n := ManualRunEnds(s, inputs, from + 1);
      }
    }
  }

  ghost predicate CalmFor(perSegment: nat, inputs: nat -> Input, n: nat) {
    forall k: nat :: k < n ==> Calm(perSegment, inputs(k))
  }

  lemma {:induction false} StaysEnded(c: Config, s: State, i: Input)
    requires s.running != MANUAL && Calm(c.perSegment, i)
    ensures Pass(c, s, i).state.running != MANUAL
  {
    hide CheckState, CleanSegments, Recalc, Receive, Starts;
    var s0 := s.(noTimeout := false);
    var (s1, sleep) := CheckState(c, s0, i.usage, i.inuse);
    CheckNotManual(c, s0, i.usage, i.inuse);
    ReceiveKeeps(c, s1, i.message);
    NeverBecomesManual(s1, i.answer);
    var (s2, ndone, failed) := if i.chosen > 0 then CleanSegments(s1, i.answer) else (s1.(retry := false), 0, false);
    RecalcNotManual(c, s2, i.chosen, ndone, i);
    ReceiveKeeps(c, Recalc(c, s2, i.chosen, ndone, i).0, i.message);
  }

  lemma {:induction false} CheckNotManual(c: Config, s: State, u: Sustat, inuse: int)
    requires s.running != MANUAL
    ensures CheckState(c, s, u, inuse).0.running != MANUAL
  {
  }

  lemma {:induction false} StaysEndedStep(s: State, i: Input)
    requires s.running != MANUAL && Calm(s.config.perSegment, i)
    ensures Step(s, i).state.running != MANUAL
  {
    hide Pass, Calm, Signalled;
    var t := Signalled(s, i.hangup);
    SignalKeeps(s, i.hangup);
    StaysEnded(t.config, t, i);
  }

  /** A manual run that still goes on after n passes has strictly less to do than before. */
  lemma {:induction false} ManualProgress(s: State, inputs: nat -> Input, n: nat)
    requires s.running == MANUAL && !s.fallback && n > 0
    requires CalmFor(s.config.perSegment, inputs, n) && Unfailed(s, inputs, n)
    ensures var t := StateAt(s, inputs, n);
            t.running == MANUAL ==> !t.fallback && Smaller(t, s)
  {
    hide Step, Calm;
    var t := StateAt(s, inputs, n - 1);
    assert Calm(s.config.perSegment, inputs(n - 1));
    AlwaysKnown(s, inputs, n - 1);
    if n > 1 {
      ManualProgress(s, inputs, n - 1);
    }
    if t.running == MANUAL {
      ManualStep(t, inputs(n - 1));
    } else {
      StaysEndedStep(t, inputs(n - 1));
    }
  }

  /** The surroundings of an idle device: one segment is selected, and nothing is done with it. */
  function Fruitless(k: nat): Input {
    Input(None, Sustat(0, 0, 0), 1, 1, Done(0, 0, false, false), 0, 0, Some(0), Some(k), None)
  }

  lemma {:induction false} FruitlessPass(s: State, k: nat)
    requires s.running == MANUAL && s.fallback && (s.passes > 0 || s.segs > 0)
    ensures Calm(s.config.perSegment, Fruitless(k))
    ensures var o := Step(s, Fruitless(k));
            !o.failed && o.state.running == MANUAL && o.state.fallback && o.state.segs > 0
  {
  }

  /** The flag left over from a lack of memory makes an undisturbed manual run go on for ever. */
  lemma {:induction false} StaleFallback(s: State, n: nat)
    requires s.running == MANUAL && s.fallback && (s.passes > 0 || s.segs > 0)
    ensures var t := StateAt(s, Fruitless, n);
            t.running == MANUAL && t.fallback && (t.passes > 0 || t.segs > 0) && !Step(t, Fruitless(n)).failed
  {
    hide Step;
    if n > 0 {
      StaleFallback(s, n - 1);
      FruitlessPass(StateAt(s, Fruitless, n - 1), n - 1);
    }
    FruitlessPass(StateAt(s, Fruitless, n), n);
  }

  ghost predicate Over(s: State, inputs: nat -> Input, n: nat) {
    var t := StateAt(s, inputs, n);
    t.running != MANUAL || Step(t, inputs(n)).failed
  }

  ghost predicate AllCalm(perSegment: nat, inputs: nat -> Input) { forall k: nat :: Calm(perSegment, inputs(k)) }

  ghost predicate Ends(s: State, inputs: nat -> Input) { exists n: nat :: Over(s, inputs, n) }

  lemma {:induction false} CountedOut(c: Config, s: State, i: Input)
    requires s.running == MANUAL && s.passes == 0 && s.segs == 0 && Calm(c.perSegment, i)
    ensures var o := Pass(c, s, i); o.failed || o.state.running != MANUAL
  {
    hide Pass, CheckState, Starts;
    ManualCheck(c, s.(noTimeout := false), i.usage, i.inuse);
    EndedPass(c, s, i);
  }

  lemma {:induction false} EndsUndisturbed(s: State, inputs: nat -> Input)
    requires !s.fallback && AllCalm(s.config.perSegment, inputs)
    ensures Ends(s, inputs)
  {
    hide Step, Calm;
    assert StateAt(s, inputs, 0) == s;
    var n := ManualRunEnds(s, inputs, 0);
    assert Over(s, inputs, n);
  }

  lemma {:induction false} EndsCountedOut(s: State, inputs: nat -> Input)
    requires s.running == MANUAL && s.passes == 0 && s.segs == 0 && AllCalm(s.config.perSegment, inputs)
    ensures Ends(s, inputs)
  {
    hide Pass, Signalled;
    var t := Signalled(s, inputs(0).hangup);
    SignalKeeps(s, inputs(0).hangup);
    CountedOut(t.config, t, inputs(0));
    assert StateAt(s, inputs, 0) == s;
    assert StateAt(s, inputs, 1) == Step(s, inputs(0)).state;
    assert Over(s, inputs, 0) || Over(s, inputs, 1);
  }

  lemma {:induction false} NeverEnds(s: State)
    requires s.running == MANUAL && s.fallback && (s.passes > 0 || s.segs > 0)
    ensures AllCalm(s.config.perSegment, Fruitless) && !Ends(s, Fruitless)
  {
    hide Step, StateAt;
    forall k: nat ensures Calm(s.config.perSegment, Fruitless(k)) {
      FruitlessPass(s, k);
    }
    forall n: nat ensures !Over(s, Fruitless, n) {
      StaleFallback(s, n);
    }
  }

  /**
   An undisturbed manual run ends whatever the surroundings do just when no fallback is pending or
   nothing is left to do.
   */
  lemma {:induction false} ManualRunEndsIff(s: State)
    requires s.running == MANUAL
    ensures (forall inputs :: AllCalm(s.config.perSegment, inputs) ==> Ends(s, inputs)) <==>
            (!s.fallback || (s.passes == 0 && s.segs == 0))
  {
    hide AllCalm, Ends;
    if !s.fallback || (s.passes == 0 && s.segs == 0) {
      forall inputs | AllCalm(s.config.perSegment, inputs) ensures Ends(s, inputs) {
        if !s.fallback {
          EndsUndisturbed(s, inputs);
        } else {
          EndsCountedOut(s, inputs);
        }
      }
    } else {
      NeverEnds(s);
    }
  }

  // ----- waiting -----

  /** When no segment was cleaned and nothing is to be retried, the daemon waits at least for the check interval. */
  lemma {:induction false} WaitsLongEnough(c: Config, s: State, chosen: int, i: Input)
    requires chosen == 0 || (!s.fallback && !s.retry)
    ensures var (t, failed) := Recalc(c, s, chosen, 0, i);
            && (!failed ==> t.timeout >= c.checkInterval && t.running != MANUAL)
            && (i.oldest == NULLTIME && s.running != MANUAL ==>
                !failed && t.running == IDLE && t.timeout >= c.protection)
  {
  }
}
