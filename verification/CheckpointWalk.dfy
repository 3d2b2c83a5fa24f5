/**
 Enumerating checkpoints in either direction over the forward-only query.

 The callback of the C code, a function pointer with a context pointer, is a function from a
 checkpoint and a context to a verdict and a new context.  A negative verdict fails the walk,
 0 skips, 1 consumes one of the requested count, and anything larger ends the walk.
 */
module CheckpointWalk {
  import opened Wrappers
  import opened Checkpoints

  const NCPINFO: nat := 512
  const MINDELTA: nat := 64

  /** A walk either goes on with some count left, or has ended by verdict or by count. */
  datatype Walk<C> = Going(rest: nat, ctx: C) | Ended(ok: bool, ctx: C)

  /** One visit. */
  function Visit<C>(cp: Cpinfo, rest: nat, out: (Cpinfo, C) -> (int, C), ctx: C): Walk<C>
    requires rest > 0
  {
    var (verdict, next) := out(cp, ctx);
    if verdict < 0 then Ended(false, next)
    else if verdict == 0 then Going(rest, next)
    else if verdict > 1 || rest == 1 then Ended(true, next)
    else Going(rest - 1, next)
  }

  /** The plain descending walk: visits cps[hi - 1], cps[hi - 2], ..., cps[lo]. */
  function WalkDown<C>(cps: seq<Cpinfo>, lo: nat, hi: nat, rest: nat,
                       out: (Cpinfo, C) -> (int, C), ctx: C): (w: Walk<C>)
    requires lo <= hi <= |cps|
    requires rest >= 1 || lo == hi
    ensures w.Going? && lo < hi ==> w.rest >= 1
    decreases hi
  {
    if lo == hi then Going(rest, ctx)
    else
      match Visit(cps[hi - 1], rest, out, ctx)
      case Going(r, c) => WalkDown(cps, lo, hi - 1, r, out, c)
      case Ended(ok, c) => Ended(ok, c)
  }

  /** The plain ascending walk: visits cps[lo], cps[lo + 1], ..., cps[hi - 1]. */
  function WalkUp<C>(cps: seq<Cpinfo>, lo: nat, hi: nat, rest: nat,
                     out: (Cpinfo, C) -> (int, C), ctx: C): (w: Walk<C>)
    requires lo <= hi <= |cps|
    requires rest >= 1 || lo == hi
    ensures w.Going? && lo < hi ==> w.rest >= 1
    decreases hi
  {
    if lo == hi then Going(rest, ctx)
    else
      match WalkUp(cps, lo, hi - 1, rest, out, ctx)
      case Going(r, c) => Visit(cps[hi - 1], r, out, c)
      case Ended(ok, c) => Ended(ok, c)
  }

  /** A descending walk splits at any point between its ends. */
  lemma {:induction false} WalkDownSplit<C>(cps: seq<Cpinfo>, lo: nat, mid: nat, hi: nat, rest: nat,
                                            out: (Cpinfo, C) -> (int, C), ctx: C)
    requires lo <= mid <= hi <= |cps|
    requires rest >= 1
    ensures WalkDown(cps, lo, hi, rest, out, ctx) ==
            match WalkDown(cps, mid, hi, rest, out, ctx) {
              case Going(r, c) => WalkDown(cps, lo, mid, r, out, c)
              case Ended(ok, c) => Ended(ok, c)
            }
    decreases hi
  {
    if mid < hi {
      match Visit(cps[hi - 1], rest, out, ctx)
      case Going(r, c) => WalkDownSplit(cps, lo, mid, hi - 1, r, out, c);
      case Ended(ok, c) =>
    }
  }

  lemma {:induction false} WalkUpSplit<C>(cps: seq<Cpinfo>, lo: nat, mid: nat, hi: nat, rest: nat,
                                          out: (Cpinfo, C) -> (int, C), ctx: C)
    requires lo <= mid <= hi <= |cps|
    requires rest >= 1
    ensures WalkUp(cps, lo, hi, rest, out, ctx) ==
            match WalkUp(cps, lo, mid, rest, out, ctx) {
              case Going(r, c) => WalkUp(cps, mid, hi, r, out, c)
              case Ended(ok, c) => Ended(ok, c)
            }
    decreases hi
  {
    if mid < hi {
      WalkUpSplit(cps, lo, mid, hi - 1, rest, out, ctx);
    }
  }

  /** A walk over part of a list is the walk over that part taken as a list of its own. */
  lemma {:induction false} WalkDownSlice<C>(cps: seq<Cpinfo>, lo: nat, b: nat, n: nat, rest: nat,
                                            out: (Cpinfo, C) -> (int, C), ctx: C)
    requires lo + n <= b <= |cps|
    requires rest >= 1
    ensures WalkDown(cps[lo..b], 0, n, rest, out, ctx) == WalkDown(cps, lo, lo + n, rest, out, ctx)
  {
    if n > 0 {
      match Visit(cps[lo + n - 1], rest, out, ctx)
      case Going(r, c) => WalkDownSlice(cps, lo, b, n - 1, r, out, c);
      case Ended(ok, c) =>
    }
  }

  lemma {:induction false} WalkUpSlice<C>(cps: seq<Cpinfo>, lo: nat, b: nat, n: nat, rest: nat,
                                          out: (Cpinfo, C) -> (int, C), ctx: C)
    requires lo + n <= b <= |cps|
    requires rest >= 1
    ensures WalkUp(cps[lo..b], 0, n, rest, out, ctx) == WalkUp(cps, lo, lo + n, rest, out, ctx)
  {
    if n > 0 {
      WalkUpSlice(cps, lo, b, n - 1, rest, out, ctx);
    }
  }

  /** Where the descending walk starts: the number of checkpoints below the start bound. */
  function BackwardStart(cps: seq<Cpinfo>, nextCno: nat, optStart: nat): (hi: nat)
    ensures hi <= |cps|
  {
    Rank(cps, if 0 < optStart < nextCno then optStart + 1 else nextCno)
  }

  function ForwardStart(cps: seq<Cpinfo>, optStart: nat): (lo: nat)
    ensures lo <= |cps|
  {
    Rank(cps, if optStart > 0 then optStart else CNO_MIN)
  }

  function Limit(optCount: nat, total: nat): nat {
    if 0 < optCount < total then optCount else total
  }

  /**
   The inner loop of the backward enumeration: visits a buffer from its last element to its
   first, passing over those at or beyond `eidx`.
   */
  method VisitBatchDown<C>(buf: seq<Cpinfo>, eidx: nat, rest0: nat,
                           out: (Cpinfo, C) -> (int, C), ctx0: C) returns (w: Walk<C>)
    requires Ascending(buf) && rest0 >= 1
    ensures DownTo(buf, 0, Rank(buf, eidx), rest0, out, ctx0, w)
    ensures w.Going? ==> w.rest >= 1
  {
    ghost var top := Rank(buf, eidx);
    var i, rest, ctx := |buf|, rest0, ctx0;
    while i > 0
      invariant 0 <= i <= |buf| && rest >= 1
      invariant WalkDown(buf, 0, top, rest0, out, ctx0) == WalkDown(buf, 0, Min(i, top), rest, out, ctx)
    {
      i := i - 1;
      RankAt(buf, eidx, i);
      if buf[i].cno >= eidx {
        continue;
      }
      var (verdict, next) := out(buf[i], ctx);
      ctx := next;
      if verdict < 0 {
        return Ended(false, ctx);
      } else if verdict == 0 {
        continue;
      } else if verdict > 1 {
        return Ended(true, ctx);
      }
      rest := rest - 1;
      if rest == 0 {
        return Ended(true, ctx);
      }
    }
    return Going(rest, ctx);
  }

  /** The inner loop of the forward enumeration, for a buffer no longer than the rest count. */
  method VisitBatchUp<C>(buf: seq<Cpinfo>, rest0: nat,
                         out: (Cpinfo, C) -> (int, C), ctx0: C) returns (w: Walk<C>)
    requires 1 <= |buf| <= rest0
    ensures UpTo(buf, 0, |buf|, rest0, out, ctx0, w)
    ensures w.Going? ==> w.rest >= 1
  {
    var rest, ctx := rest0, ctx0;
    for i := 0 to |buf|
      invariant rest >= |buf| - i
      invariant rest > 0 ==> WalkUp(buf, 0, i, rest0, out, ctx0) == Going(rest, ctx)
      invariant rest == 0 ==> i == |buf| && WalkUp(buf, 0, i, rest0, out, ctx0) == Ended(true, ctx)
    {
      WalkUpSplit(buf, 0, i + 1, |buf|, rest0, out, ctx0);
      var (verdict, next) := out(buf[i], ctx);
      ctx := next;
      if verdict < 0 {
        return Ended(false, ctx);
      } else if verdict == 0 {
        continue;
      } else if verdict > 1 {
        return Ended(true, ctx);
      }
      rest := rest - 1;
    }
    return if rest == 0 then Ended(true, ctx) else Going(rest, ctx);
  }

  /** The walk `w` is what the descending walk from `hi` is when it has got down to `lo`. */
  ghost predicate DownTo<C>(cps: seq<Cpinfo>, lo: nat, hi: nat, limit: nat,
                            out: (Cpinfo, C) -> (int, C), ctx0: C, w: Walk<C>)
  {
    && lo <= hi <= |cps| && (limit >= 1 || lo == hi)
    && w == WalkDown(cps, lo, hi, limit, out, ctx0)
  }

  /** The walk `w` is what the ascending walk from `lo` is when it has got up to `hi`. */
  ghost predicate UpTo<C>(cps: seq<Cpinfo>, lo: nat, hi: nat, limit: nat,
                          out: (Cpinfo, C) -> (int, C), ctx0: C, w: Walk<C>)
  {
    && lo <= hi <= |cps| && (limit >= 1 || lo == hi)
    && w == WalkUp(cps, lo, hi, limit, out, ctx0)
  }

  lemma {:induction false} DownToStart<C>(cps: seq<Cpinfo>, hi: nat, limit: nat, out: (Cpinfo, C) -> (int, C), ctx0: C)
    requires hi <= |cps|
    ensures DownTo(cps, hi, hi, limit, out, ctx0, Going(limit, ctx0))
  {
  }

  lemma {:induction false} UpToStart<C>(cps: seq<Cpinfo>, lo: nat, limit: nat, out: (Cpinfo, C) -> (int, C), ctx0: C)
    requires lo <= |cps|
    ensures UpTo(cps, lo, lo, limit, out, ctx0, Going(limit, ctx0))
  {
  }

  datatype SearchState = InitSt | NormalSt | AccelSt | DecelSt

  /** The variables of the backward search: it has dealt with all checkpoints from `eidx` on. */
  datatype Search = Search(state: SearchState, eidx: nat, prevHead: nat, delta: nat, v: nat) {

    /** The first number of the window to ask for. */
    function Sidx(): (sidx: nat)
      requires eidx > CNO_MIN && v > 0
      ensures CNO_MIN <= sidx < eidx
    {
      if eidx < CNO_MIN + v || state.InitSt? then CNO_MIN else eidx - v
    }

    function ReqCount(): nat
      requires eidx > CNO_MIN && v > 0
    {
      Min(if state.NormalSt? then eidx - Sidx() else 1, NCPINFO)
    }
  }

  function Delta(rest: nat): nat { Min(NCPINFO, Max(rest, MINDELTA)) }

  /** A 64-bit left shift by one. */
  function Shl1(v: nat): nat { (v * 2) % 0x1_0000_0000_0000_0000 }

  /** What the search does with an answer. */
  datatype Move =
    | Finish                // nothing is left below the window
    | Again(next: Search)   // ask again, further back or more slowly
    | Take                  // the answer holds all of the window: visit it

  function Decide(s: Search, buf: seq<Cpinfo>): Move
    requires s.eidx > CNO_MIN && s.v > 0
    requires |buf| > 0
  {
    if s.state.InitSt? then
      if buf[0].cno >= s.eidx then Finish else Again(s.(state := NormalSt))
    else if buf[0].cno == s.prevHead then
      if s.Sidx() == CNO_MIN then Finish
      else
        var faster := if Shl1(s.v) > s.v then Shl1(s.v) else s.v;
        match s.state
        case NormalSt => Again(s.(state := AccelSt, v := faster, eidx := s.Sidx()))
        case AccelSt => Again(s.(v := faster, eidx := s.Sidx()))
        case DecelSt => Again(s.(state := NormalSt, v := s.delta, eidx := s.Sidx()))
    else if !s.state.NormalSt? && buf[|buf| - 1].cno + 1 < s.prevHead then
      if s.v / 2 <= s.delta then Again(s.(state := NormalSt, v := s.delta))
      else Again(s.(state := DecelSt, v := s.v / 2))
    else Take
  }

  /**
   The invariant of the search: the window width fits the state, and no checkpoint lies between
   `eidx` and the last head, so an answer starting at the last head says the window is empty.
   */
  ghost predicate SearchInv(cps: seq<Cpinfo>, s: Search)
  {
    && MINDELTA <= s.delta <= NCPINFO && s.delta <= s.v < 0x1_0000_0000_0000_0000
    && (s.state.InitSt? || s.state.NormalSt? ==> s.v == s.delta)
    && (s.state.AccelSt? || s.state.DecelSt? ==> s.v > s.delta && s.prevHead != 0)
    && (s.prevHead != 0 ==> Rank(cps, s.eidx) < |cps| && cps[Rank(cps, s.eidx)].cno == s.prevHead)
  }

  lemma {:induction false} SliceRank(cps: seq<Cpinfo>, lo: nat, b: nat, bound: nat)
    requires Ascending(cps) && lo <= Rank(cps, bound) <= b <= |cps|
    ensures Ascending(cps[lo..b]) && Rank(cps[lo..b], bound) == Rank(cps, bound) - lo
  {
    var r, k := Rank(cps[lo..b], bound), Rank(cps, bound) - lo;
    if k < b - lo {
      RankAt(cps, bound, lo + k);
      RankAt(cps[lo..b], bound, k);
    }
    if k > 0 {
      RankAt(cps, bound, lo + k - 1);
      RankAt(cps[lo..b], bound, k - 1);
    }
  }

  /** The answer to a window query, as a part of the list. */
  lemma {:induction false} WindowAnswer(cps: seq<Cpinfo>, s: Search, buf: seq<Cpinfo>)
    requires Ascending(cps) && s.eidx > CNO_MIN && s.v > 0
    requires buf == Query(cps, s.Sidx(), s.ReqCount()) && buf != []
    ensures var lo, e := Rank(cps, s.Sidx()), Rank(cps, s.eidx);
            && lo <= e
            && lo + |buf| <= |cps| && buf == cps[lo..lo + |buf|]
            && buf[0] == cps[lo]
            && (lo < e <==> buf[0].cno < s.eidx)
            && (s.state.NormalSt? && s.v <= NCPINFO ==> e <= lo + |buf|)
            && (!s.state.NormalSt? ==> |buf| == 1)
  {
    var sidx, count := s.Sidx(), s.ReqCount();
    WindowBound(cps, sidx, s.eidx);
    RankAt(cps, s.eidx, Rank(cps, sidx));
  }

  /** Finishing or moving on loses no checkpoint, and the search makes progress. */
  lemma {:induction false} MoveSound(cps: seq<Cpinfo>, s: Search, buf: seq<Cpinfo>)
    requires Ascending(cps) && SearchInv(cps, s) && s.eidx > CNO_MIN
    requires buf == Query(cps, s.Sidx(), s.ReqCount()) && buf != []
    ensures Decide(s, buf).Finish? ==> Rank(cps, s.eidx) == 0
    ensures Decide(s, buf).Again? ==>
              var t := Decide(s, buf).next;
              SearchInv(cps, t) && Rank(cps, t.eidx) == Rank(cps, s.eidx) && Closer(t, s)
  {
    WindowAnswer(cps, s, buf);
    if buf[0].cno == s.prevHead {
      RankOf(cps, Rank(cps, s.Sidx()));
      RankOf(cps, Rank(cps, s.eidx));
    }
    if s.Sidx() == CNO_MIN && |cps| > 0 {
      RankAt(cps, CNO_MIN, 0);
    }
  }

  /** What is taken is exactly the window. */
  lemma {:induction false} TakeSound(cps: seq<Cpinfo>, s: Search, buf: seq<Cpinfo>)
    requires Ascending(cps) && SearchInv(cps, s) && s.eidx > CNO_MIN
    requires buf == Query(cps, s.Sidx(), s.ReqCount()) && buf != []
    requires Decide(s, buf).Take?
    ensures HoldsWindow(cps, s, buf)
  {
    WindowAnswer(cps, s, buf);
    var lo, e := Rank(cps, s.Sidx()), Rank(cps, s.eidx);
    RankOf(cps, lo);
    if s.prevHead != 0 {
      RankOf(cps, e);
    }
    if !s.state.NormalSt? && lo + 1 < |cps| {
      assert Older(cps[lo], cps[lo + 1]);
      RankAt(cps, s.eidx, e);
      RankAt(cps, s.eidx, lo + 1);
    }
    SliceRank(cps, lo, lo + |buf|, s.eidx);
  }

  /** The buffer is the part of the list that starts with the window, and covers the window. */
  ghost predicate HoldsWindow(cps: seq<Cpinfo>, s: Search, buf: seq<Cpinfo>)
    requires s.eidx > CNO_MIN && s.v > 0
  {
    var lo := Rank(cps, s.Sidx());
    && !s.state.InitSt?
    && lo + |buf| <= |cps| && buf != [] && buf == cps[lo..lo + |buf|] && buf[0] == cps[lo]
    && Ascending(buf) && lo + Rank(buf, s.eidx) == Rank(cps, s.eidx)
  }

  /** Visiting the window carries the descending walk down to the start of the window. */
  lemma {:induction false} TakeWindow<C>(cps: seq<Cpinfo>, buf: seq<Cpinfo>, lo: nat, n: nat, hi: nat, limit: nat,
                      out: (Cpinfo, C) -> (int, C), ctx0: C, w: Walk<C>, next: Walk<C>)
    requires lo + |buf| <= |cps| && buf == cps[lo..lo + |buf|] && n <= |buf|
    requires DownTo(cps, lo + n, hi, limit, out, ctx0, w) && w.Going? && w.rest >= 1 && limit >= 1
    requires DownTo(buf, 0, n, w.rest, out, w.ctx, next)
    ensures DownTo(cps, lo, hi, limit, out, ctx0, next)
    ensures next.Ended? ==> DownTo(cps, 0, hi, limit, out, ctx0, next)
  {
    WalkDownSlice(cps, lo, lo + |buf|, n, w.rest, out, w.ctx);
    WalkDownSplit(cps, lo, lo + n, hi, limit, out, ctx0);
    WalkDownSplit(cps, 0, lo, hi, limit, out, ctx0);
  }

  /** Visiting a batch carries the ascending walk up to the end of the batch. */
  lemma {:induction false} TakeBatch<C>(cps: seq<Cpinfo>, buf: seq<Cpinfo>, lo: nat, base: nat, limit: nat,
                     out: (Cpinfo, C) -> (int, C), ctx0: C, w: Walk<C>, next: Walk<C>)
    requires base + |buf| <= |cps| && buf == cps[base..base + |buf|]
    requires UpTo(cps, lo, base, limit, out, ctx0, w) && w.Going? && w.rest >= 1 && limit >= 1
    requires UpTo(buf, 0, |buf|, w.rest, out, w.ctx, next)
    ensures UpTo(cps, lo, base + |buf|, limit, out, ctx0, next)
    ensures next.Ended? ==> UpTo(cps, lo, |cps|, limit, out, ctx0, next)
  {
    WalkUpSlice(cps, base, base + |buf|, |buf|, w.rest, out, w.ctx);
    WalkUpSplit(cps, lo, base, base + |buf|, limit, out, ctx0);
    WalkUpSplit(cps, lo, base + |buf|, |cps|, limit, out, ctx0);
  }

  /** Strict progress of the search. */
  ghost predicate Closer(t: Search, s: Search) {
    || (s.state.InitSt? && !t.state.InitSt? && t.eidx <= s.eidx)
    || (!s.state.InitSt? && !t.state.InitSt? && (t.eidx < s.eidx || (t.eidx == s.eidx && t.v < s.v)))
  }

  /** One turn of the backward search: the query for the window and the decision on its answer. */
  method Ask(nilfs: Nilfs, s: Search) returns (move: Option<Move>, buf: seq<Cpinfo>)
    requires nilfs.Valid() && nilfs.cps != [] && CNO_MIN < s.eidx <= nilfs.nextCno
    requires SearchInv(nilfs.cps, s)
    modifies nilfs`mincno
    ensures nilfs.Valid()
    ensures move == Some(Finish) ==> Rank(nilfs.cps, s.eidx) == 0
    ensures move.Some? && move.value.Again? ==>
              var t := move.value.next;
              SearchInv(nilfs.cps, t) && Rank(nilfs.cps, t.eidx) == Rank(nilfs.cps, s.eidx) && Closer(t, s)
    ensures move == Some(Take) ==> HoldsWindow(nilfs.cps, s, buf)
  {
    var answer := nilfs.GetCpinfo(s.Sidx(), CheckpointMode, s.ReqCount());
    if answer.None? {
      return None, [];
    }
    buf := answer.value;
    if |buf| == 0 {
      RankAt(nilfs.cps, s.Sidx(), |nilfs.cps| - 1);
      return Some(Finish), [];
    }
    MoveSound(nilfs.cps, s, buf);
    if Decide(s, buf).Take? {
      TakeSound(nilfs.cps, s, buf);
    }
    return Some(Decide(s, buf)), buf;
  }

  /** Visits a window that the buffer holds, and moves the search to the start of the window. */
  method VisitWindow<C>(ghost cps: seq<Cpinfo>, ghost hi: nat, ghost limit: nat, s: Search, buf: seq<Cpinfo>,
                        out: (Cpinfo, C) -> (int, C), ghost ctx0: C, w: Walk<C>)
    returns (next: Walk<C>, t: Search)
    requires s.eidx > CNO_MIN && s.v > 0 && HoldsWindow(cps, s, buf)
    requires w.Going? && w.rest >= 1 && limit >= 1
    requires DownTo(cps, Rank(cps, s.eidx), hi, limit, out, ctx0, w)
    ensures Rank(cps, s.Sidx()) <= hi && DownTo(cps, Rank(cps, s.Sidx()), hi, limit, out, ctx0, next)
    ensures next.Ended? ==> DownTo(cps, 0, hi, limit, out, ctx0, next)
    ensures next.Going? ==> next.rest >= 1
    ensures t.eidx == s.Sidx() && !t.state.InitSt? && SearchInv(cps, t)
  {
    hide WalkDown;
    next := VisitBatchDown(buf, s.eidx, w.rest, out, w.ctx);
    TakeWindow(cps, buf, Rank(cps, s.Sidx()), Rank(buf, s.eidx), hi, limit, out, ctx0, w, next);
    var delta := Delta(if next.Going? then next.rest else 0);
    t := Search(NormalSt, s.Sidx(), buf[0].cno, delta, delta);
  }

  /**
   nilfs_enum_cpinfo_backward: the accelerating and decelerating window search makes exactly the
   plain descending walk.  When a query fails, it has made that walk down to some point.
   */
  method EnumBackward<C>(nilfs: Nilfs, optStart: nat, optCount: nat,
                         out: (Cpinfo, C) -> (int, C), ctx0: C)
    returns (queryFailed: bool, w: Walk<C>, ghost stop: nat)
    requires nilfs.Valid()
    modifies nilfs`mincno
    ensures nilfs.Valid()
    ensures DownTo(nilfs.cps, stop, BackwardStart(nilfs.cps, nilfs.nextCno, optStart), Limit(optCount, |nilfs.cps|),
                   out, ctx0, w)
    ensures if queryFailed then w.Going? else stop == 0
  {
    hide WalkDown, DownTo, HoldsWindow, Query;
    var stat := nilfs.GetCpstat();
    ghost var cps := nilfs.cps;
    ghost var hi := BackwardStart(cps, nilfs.nextCno, optStart);
    var rest := if optCount > 0 && optCount < stat.ncps then optCount else stat.ncps;
    w, stop := Going(rest, ctx0), hi;
    DownToStart(cps, hi, rest, out, ctx0);
    if rest == 0 {
      return false, w, stop;
    }
    ghost var limit := rest;

    var eidx := if optStart > 0 && optStart < stat.cno then optStart + 1 else stat.cno;
    var s := Search(InitSt, eidx, 0, Delta(rest), Delta(rest));

    while s.eidx > CNO_MIN
      invariant nilfs.Valid() && s.eidx <= nilfs.nextCno
      invariant SearchInv(cps, s)
      invariant stop == Rank(cps, s.eidx) <= hi
      invariant w.Going? && w.rest >= 1 && DownTo(cps, stop, hi, limit, out, ctx0, w)
      decreases if s.state.InitSt? then 1 else 0, s.eidx, s.v
    {
      var move, buf := Ask(nilfs, s);
      if move.None? {
        return true, w, stop;
      }
      match move.value {
        case Finish =>
          break;
        case Again(t) =>
          s := t;
          continue;
        case Take =>
      }

      stop := Rank(cps, s.Sidx());
      w, s := VisitWindow(cps, hi, limit, s, buf, out, ctx0, w);
      if w.Ended? {
        return false, w, 0;
      }
    }
    RankAt(cps, s.eidx, 0);
    return false, w, stop;
  }

  /** The query for the next batch goes on where the last batch ended. */
  lemma {:induction false} NextBatch(cps: seq<Cpinfo>, sidx: nat, count: nat)
    requires Ascending(cps)
    ensures var buf := Query(cps, sidx, count);
            var base := Rank(cps, sidx);
            && base + |buf| <= |cps| && buf == cps[base..base + |buf|]
            && (buf == [] && count > 0 ==> base == |cps|)
            && (buf != [] ==> sidx <= buf[|buf| - 1].cno
                              && Rank(cps, buf[|buf| - 1].cno + 1) == base + |buf|)
  {
    var buf := Query(cps, sidx, count);
    var base := Rank(cps, sidx);
    if buf != [] {
      var last := base + |buf| - 1;
      assert buf[|buf| - 1] == cps[last];
      RankOf(cps, last);
      RankAt(cps, sidx, last);
    }
  }

  /** One turn of the forward enumeration: the query for the next batch. */
  method FetchBatch(nilfs: Nilfs, sidx: nat, count: nat) returns (answer: Option<seq<Cpinfo>>)
    requires nilfs.Valid() && sidx >= CNO_MIN && count >= 1
    modifies nilfs`mincno
    ensures nilfs.Valid()
    ensures answer.Some? ==>
              var cps, buf, base := nilfs.cps, answer.value, Rank(nilfs.cps, sidx);
              && |buf| <= count && base + |buf| <= |cps| && buf == cps[base..base + |buf|]
              && (buf == [] ==> base == |cps|)
              && (buf != [] ==> sidx <= buf[|buf| - 1].cno < nilfs.nextCno
                                && Rank(cps, buf[|buf| - 1].cno + 1) == base + |buf|)
  {
    NextBatch(nilfs.cps, sidx, count);
    answer := nilfs.GetCpinfo(sidx, CheckpointMode, count);
  }

  /** nilfs_enum_cpinfo_forward makes exactly the plain ascending walk. */
  method EnumForward<C>(nilfs: Nilfs, optStart: nat, optCount: nat,
                        out: (Cpinfo, C) -> (int, C), ctx0: C)
    returns (queryFailed: bool, w: Walk<C>, ghost stop: nat)
    requires nilfs.Valid()
    modifies nilfs`mincno
    ensures nilfs.Valid()
    ensures UpTo(nilfs.cps, ForwardStart(nilfs.cps, optStart), stop, Limit(optCount, |nilfs.cps|), out, ctx0, w)
    ensures if queryFailed then w.Going? else stop == |nilfs.cps|
  {
    hide WalkUp, UpTo;
    var stat := nilfs.GetCpstat();
    ghost var cps := nilfs.cps;
    var rest := if optCount > 0 && optCount < stat.ncps then optCount else stat.ncps;
    var sidx: nat := if optStart > 0 then optStart else CNO_MIN;
    ghost var lo, limit := ForwardStart(cps, optStart), rest;
    w, stop := Going(rest, ctx0), lo;
    UpToStart(cps, lo, rest, out, ctx0);
    if rest == 0 {
      return false, w, stop;
    }

    while sidx < stat.cno
      invariant nilfs.Valid() && sidx >= CNO_MIN
      invariant lo <= stop == Rank(cps, sidx)
      invariant w.Going? && w.rest >= 1 && UpTo(cps, lo, stop, limit, out, ctx0, w)
      decreases stat.cno - sidx
    {
      var answer := FetchBatch(nilfs, sidx, Min(w.rest, NCPINFO));
      if answer.None? {
        return true, w, stop;
      }
      var buf := answer.value;
      if |buf| == 0 {
        break;
      }
      var next := VisitBatchUp(buf, w.rest, out, w.ctx);
      TakeBatch(cps, buf, lo, stop, limit, out, ctx0, w, next);
      stop := stop + |buf|;
      w := next;
      if w.Ended? {
        return false, w, |cps|;
      }
      sidx := buf[|buf| - 1].cno + 1;
    }
    if sidx >= stat.cno {
      RankAt(cps, sidx, |cps| - 1);
    }
    return false, w, stop;
  }
}
