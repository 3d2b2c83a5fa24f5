/**
 The history of time progress that the checkpoint-number mapper records: spans of checkpoints,
 newest first, and the distances between checkpoints that they stand for.
 */
module Spans {
  import opened Checkpoints

  const NCP_PER_SPAN: nat := 4096
  const INTERVAL_ON_REWIND: nat := 1

  datatype Cptime = Cptime(cno: nat, time: nat)

  datatype Cpspan = Cpspan(start: Cptime, end: Cptime, approxNcp: nat)

  function TimeOf(cp: Cpinfo): Cptime { Cptime(cp.cno, cp.create) }

  function SingleSpan(cp: Cpinfo): Cpspan { Cpspan(TimeOf(cp), TimeOf(cp), 1) }

  function GapOfSpans(gapFrom: nat, gapTo: nat): nat {
    if gapTo >= gapFrom then gapTo - gapFrom else INTERVAL_ON_REWIND
  }

  // ----- distances between checkpoints -----

  /** The time that passed from checkpoint i to checkpoint j, a clock rewind counting as 1. */
  function Dist(cps: seq<Cpinfo>, i: nat, j: nat): nat
    requires i <= j < |cps|
    decreases j - i
  {
    if i == j then 0 else GapOfSpans(cps[i].create, cps[i + 1].create) + Dist(cps, i + 1, j)
  }

  lemma {:induction false} DistSplit(cps: seq<Cpinfo>, i: nat, k: nat, j: nat)
    requires i <= k <= j < |cps|
    ensures Dist(cps, i, j) == Dist(cps, i, k) + Dist(cps, k, j)
    decreases k - i
  {
    if i < k {
      DistSplit(cps, i + 1, k, j);
    }
  }

  predicate NotLater(a: Cpinfo, b: Cpinfo) { a.create <= b.create }

  ghost predicate Rising(cps: seq<Cpinfo>, a: nat, b: nat)
    requires b < |cps|
  {
    forall k, l {:trigger NotLater(cps[k], cps[l])} :: a <= k <= l <= b ==> NotLater(cps[k], cps[l])
  }

  /** Where the clock never goes back, the distance is the difference of the times. */
  lemma {:induction false} RisingDist(cps: seq<Cpinfo>, a: nat, b: nat)
    requires a <= b < |cps| && Rising(cps, a, b)
    ensures cps[a].create + Dist(cps, a, b) == cps[b].create
    decreases b - a
  {
    if a < b {
      assert NotLater(cps[a], cps[a + 1]);
      RisingDist(cps, a + 1, b);
    }
  }

  /** cps[r] is the oldest checkpoint whose distance to cps[top] is within the budget. */
  ghost predicate OldestWithin(cps: seq<Cpinfo>, top: nat, budget: nat, r: nat) {
    && r <= top < |cps|
    && Dist(cps, r, top) <= budget
    && forall q :: 0 <= q < r ==> Dist(cps, q, top) > budget
  }

  lemma {:induction false} OldestByNeighbour(cps: seq<Cpinfo>, top: nat, budget: nat, r: nat)
    requires r <= top < |cps|
    requires Dist(cps, r, top) <= budget
    requires r > 0 ==> Dist(cps, r - 1, top) > budget
    ensures OldestWithin(cps, top, budget, r)
  {
    forall q | 0 <= q < r ensures Dist(cps, q, top) > budget {
      DistSplit(cps, q, r - 1, top);
    }
  }

  lemma {:induction false} OldestUnique(cps: seq<Cpinfo>, top: nat, budget: nat, r: nat, s: nat)
    requires OldestWithin(cps, top, budget, r) && OldestWithin(cps, top, budget, s)
    ensures r == s
  {
  }

  // ----- spans -----

  predicate InSpan(sp: Cpspan, cp: Cpinfo) { sp.start.cno <= cp.cno <= sp.end.cno }

  /**
   A span is in order, and the checkpoints the kernel still has within it have times within it
   that do not fall as the numbers rise; its ends, if the kernel still has them, have the recorded times.
   */
  ghost predicate SpanOk(cps: seq<Cpinfo>, sp: Cpspan) {
    && sp.start.cno <= sp.end.cno
    && sp.start.time <= sp.end.time
    && sp.approxNcp >= 1
    && (forall k :: 0 <= k < |cps| && InSpan(sp, cps[k]) ==>
                      && sp.start.time <= cps[k].create <= sp.end.time
                      && (cps[k].cno == sp.start.cno ==> cps[k].create == sp.start.time)
                      && (cps[k].cno == sp.end.cno ==> cps[k].create == sp.end.time))
    && (forall k, l {:trigger NotLater(cps[k], cps[l])} ::
          0 <= k <= l < |cps| && InSpan(sp, cps[k]) && InSpan(sp, cps[l]) ==> NotLater(cps[k], cps[l]))
  }

  predicate After(newer: Cpspan, older: Cpspan) { older.end.cno < newer.start.cno }

  /** The kernel has no checkpoint between an older span and the next newer one. */
  ghost predicate Meet(cps: seq<Cpinfo>, newer: Cpspan, older: Cpspan) {
    Rank(cps, older.end.cno + 1) == Rank(cps, newer.start.cno)
  }

  /** Spans are sound and disjoint, newest first, and leave out no checkpoint between them. */
  ghost predicate SpansOk(cps: seq<Cpinfo>, spans: seq<Cpspan>) {
    && (forall i :: 0 <= i < |spans| ==> SpanOk(cps, spans[i]))
    && (forall i, j {:trigger After(spans[i], spans[j])} :: 0 <= i < j < |spans| ==> After(spans[i], spans[j]))
    && (forall i, j {:trigger Meet(cps, spans[i], spans[j])} :: 0 <= i && i + 1 == j < |spans| ==>
        Meet(cps, spans[i], spans[j]))
  }

  function Width(sp: Cpspan): int { sp.end.time - sp.start.time }

  /** The time the first `n` spans stand for: their widths and the gaps between them. */
  function Total(spans: seq<Cpspan>, n: nat): int
    requires n <= |spans|
  {
    if n == 0 then 0
    else if n == 1 then Width(spans[0])
    else Total(spans, n - 1) + GapOfSpans(spans[n - 1].end.time, spans[n - 2].start.time) + Width(spans[n - 1])
  }

  lemma {:induction false} TotalPrefix(a: seq<Cpspan>, b: seq<Cpspan>, n: nat)
    requires n <= |a| && n <= |b|
    requires forall i :: 0 <= i < n ==> a[i] == b[i]
    ensures Total(a, n) == Total(b, n)
  {
    if n > 1 {
      TotalPrefix(a, b, n - 1);
    }
  }

  /** Replacing the newest span by one that ends later and starts the same. */
  lemma {:induction false} TotalNewest(a: seq<Cpspan>, b: seq<Cpspan>, n: nat)
    requires 1 <= n <= |a| && |a| == |b|
    requires a[0].start == b[0].start
    requires forall i :: 1 <= i < |a| ==> a[i] == b[i]
    ensures Total(b, n) - Total(a, n) == b[0].end.time - a[0].end.time
  {
    if n > 1 {
      TotalNewest(a, b, n - 1);
    }
  }

  /** Putting a new newest span in front. */
  lemma {:induction false} TotalInsert(sp: Cpspan, a: seq<Cpspan>, n: nat)
    requires 1 <= n <= |a|
    ensures Total([sp] + a, n + 1) == Width(sp) + GapOfSpans(a[0].end.time, sp.start.time) + Total(a, n)
  {
    if n > 1 {
      TotalInsert(sp, a, n - 1);
    }
  }

  lemma {:induction false} TotalNonNegative(cps: seq<Cpinfo>, spans: seq<Cpspan>, n: nat)
    requires n <= |spans| && SpansOk(cps, spans)
    ensures Total(spans, n) >= 0
  {
    if n > 1 {
      TotalNonNegative(cps, spans, n - 1);
    }
    if n > 0 {
      assert SpanOk(cps, spans[n - 1]);
    }
  }

  /** The recorded history: sound spans whose total is the recorded elapsed time. */
  ghost predicate HistoryOk(cps: seq<Cpinfo>, spans: seq<Cpspan>, elapsed: int) {
    SpansOk(cps, spans) && elapsed == Total(spans, |spans|)
  }

  // ----- histories whose ends the kernel still has -----

  /** A checkpoint is on the list under its number and with its time. */
  ghost predicate Listed(cps: seq<Cpinfo>, t: Cptime) {
    var i := Rank(cps, t.cno);
    i < |cps| && TimeOf(cps[i]) == t
  }

  /** The ends of every span are on the list. */
  ghost predicate Intact(cps: seq<Cpinfo>, spans: seq<Cpspan>) {
    forall i :: 0 <= i < |spans| ==> Listed(cps, spans[i].start) && Listed(cps, spans[i].end)
  }

  /** Then two adjacent spans meet at neighbours on the list. */
  lemma {:induction false} MeetAtNeighbours(cps: seq<Cpinfo>, spans: seq<Cpspan>, i: nat)
    requires Ascending(cps) && SpansOk(cps, spans) && Intact(cps, spans) && 0 < i < |spans|
    ensures Rank(cps, spans[i].end.cno) + 1 == Rank(cps, spans[i - 1].start.cno)
  {
    assert Meet(cps, spans[i - 1], spans[i]) && Listed(cps, spans[i].end);
    RankOf(cps, Rank(cps, spans[i].end.cno));
  }

  function Top(cps: seq<Cpinfo>, spans: seq<Cpspan>): nat
    requires |spans| > 0
  {
    Rank(cps, spans[0].end.cno)
  }

  function Bottom(cps: seq<Cpinfo>, spans: seq<Cpspan>): nat
    requires |spans| > 0
  {
    Rank(cps, spans[|spans| - 1].start.cno)
  }

  /** The width of a span whose ends are on the list is the distance between its ends. */
  lemma {:induction false} WidthIsDist(cps: seq<Cpinfo>, sp: Cpspan)
    requires Ascending(cps) && SpanOk(cps, sp) && Listed(cps, sp.start) && Listed(cps, sp.end)
    ensures Rank(cps, sp.start.cno) <= Rank(cps, sp.end.cno) < |cps|
    ensures Width(sp) == Dist(cps, Rank(cps, sp.start.cno), Rank(cps, sp.end.cno))
    ensures Rising(cps, Rank(cps, sp.start.cno), Rank(cps, sp.end.cno))
  {
    var a, b := Rank(cps, sp.start.cno), Rank(cps, sp.end.cno);
    WindowBound(cps, sp.start.cno, sp.end.cno);
    forall k | a <= k <= b ensures InSpan(sp, cps[k]) {
      assert a < k ==> Older(cps[a], cps[k]);
      assert k < b ==> Older(cps[k], cps[b]);
    }
    RisingDist(cps, a, b);
  }

  /** The total of an intact history is the distance between its oldest and newest checkpoint. */
  lemma {:induction false} TotalIsDist(cps: seq<Cpinfo>, spans: seq<Cpspan>, n: nat)
    requires Ascending(cps) && SpansOk(cps, spans) && Intact(cps, spans)
    requires 1 <= n <= |spans|
    ensures Rank(cps, spans[n - 1].start.cno) <= Top(cps, spans) < |cps|
    ensures Total(spans, n) == Dist(cps, Rank(cps, spans[n - 1].start.cno), Top(cps, spans))
  {
    hide Rank, SpansOk, Intact, Dist;
    WholeSpan(cps, spans, n - 1);
    if n > 1 {
      TotalIsDist(cps, spans, n - 1);
      MeetAtNeighbours(cps, spans, n - 1);
      WholeSpan(cps, spans, n - 2);
      var a, b := Rank(cps, spans[n - 1].start.cno), Rank(cps, spans[n - 1].end.cno);
      DistSplit(cps, a, b, Top(cps, spans));
      DistNext(cps, b, Top(cps, spans));
    }
  }

  lemma {:induction false} DistNext(cps: seq<Cpinfo>, i: nat, j: nat)
    requires i < j < |cps|
    ensures Dist(cps, i, j) == GapOfSpans(cps[i].create, cps[i + 1].create) + Dist(cps, i + 1, j)
  {
  }

  lemma {:induction false} WholeSpan(cps: seq<Cpinfo>, spans: seq<Cpspan>, i: nat)
    requires Ascending(cps) && SpansOk(cps, spans) && Intact(cps, spans) && i < |spans|
    ensures Listed(cps, spans[i].start) && Listed(cps, spans[i].end)
    ensures Rank(cps, spans[i].start.cno) <= Rank(cps, spans[i].end.cno) < |cps|
    ensures Width(spans[i]) == Dist(cps, Rank(cps, spans[i].start.cno), Rank(cps, spans[i].end.cno))
  {
    hide Dist, Rank;
    WidthIsDist(cps, spans[i]);
  }

  // ----- ages: what a history says about the checkpoints that the kernel still has -----

  /** The recorded time from a checkpoint of span j to the newest recorded checkpoint. */
  function Age(spans: seq<Cpspan>, j: nat, cp: Cpinfo): int
    requires j < |spans|
  {
    Total(spans, j + 1) - (cp.create - spans[j].start.time)
  }

  /**
   The number lies in the history, and separates the recorded checkpoints within the budget from those
   that are too old.
   */
  ghost predicate Splits(cps: seq<Cpinfo>, spans: seq<Cpspan>, budget: int, cno: nat) {
    && spans != [] && spans[|spans| - 1].start.cno <= cno <= spans[0].end.cno
    && forall j, k {:trigger InSpan(spans[j], cps[k])} ::
       0 <= j < |spans| && 0 <= k < |cps| && InSpan(spans[j], cps[k]) ==>
      (cps[k].cno < cno <==> Age(spans, j, cps[k]) > budget)
  }

  /** The age of a checkpoint lies between those of the ends of its span. */
  lemma {:induction false} AgeWithin(cps: seq<Cpinfo>, spans: seq<Cpspan>, j: nat, k: nat)
    requires SpansOk(cps, spans) && j < |spans| && k < |cps| && InSpan(spans[j], cps[k])
    ensures Total(spans, j + 1) - Width(spans[j]) <= Age(spans, j, cps[k]) <= Total(spans, j + 1)
  {
    hide Rank, Total;
    assert SpanOk(cps, spans[j]);
  }

  /** Older spans have higher ages. */
  lemma {:induction false} TotalMonotone(cps: seq<Cpinfo>, spans: seq<Cpspan>, m: nat, n: nat)
    requires SpansOk(cps, spans) && 1 <= m <= n <= |spans|
    ensures Total(spans, m) <= Total(spans, n)
    ensures m < n ==> Total(spans, m) <= Total(spans, n) - Width(spans[n - 1])
    decreases n
  {
    hide Rank;
    if m < n {
      TotalMonotone(cps, spans, m, n - 1);
      assert SpanOk(cps, spans[n - 1]);
    }
  }

  /** The recorded numbers lie between those of the start and the end of the history. */
  lemma {:induction false} EndsWithin(cps: seq<Cpinfo>, spans: seq<Cpspan>, i: nat)
    requires SpansOk(cps, spans) && i < |spans|
    ensures spans[|spans| - 1].start.cno <= spans[i].start.cno <= spans[i].end.cno <= spans[0].end.cno
  {
    assert SpanOk(cps, spans[i]) && SpanOk(cps, spans[0]) && SpanOk(cps, spans[|spans| - 1]);
    assert i > 0 ==> After(spans[0], spans[i]);
    assert i < |spans| - 1 ==> After(spans[i], spans[|spans| - 1]);
  }

  /** Every checkpoint from the start of the history to its end is recorded in one of its spans. */
  lemma {:induction false} Recorded(cps: seq<Cpinfo>, spans: seq<Cpspan>, k: nat) returns (j: nat)
    requires Ascending(cps) && SpansOk(cps, spans) && spans != [] && k < |cps|
    requires spans[|spans| - 1].start.cno <= cps[k].cno <= spans[0].end.cno
    ensures j < |spans| && InSpan(spans[j], cps[k])
  {
    hide SpanOk;
    j := 0;
    while cps[k].cno < spans[j].start.cno
      invariant j < |spans| && cps[k].cno <= spans[j].end.cno
      decreases |spans| - j
    {
      assert Meet(cps, spans[j], spans[j + 1]);
      RankAt(cps, spans[j + 1].end.cno + 1, k);
      RankAt(cps, spans[j].start.cno, k);
      j := j + 1;
    }
  }

  /** While the history is within the budget, all of it is. */
  lemma {:induction false} AllWithin(cps: seq<Cpinfo>, spans: seq<Cpspan>, budget: int)
    requires SpansOk(cps, spans) && spans != [] && Total(spans, |spans|) <= budget
    ensures Splits(cps, spans, budget, spans[|spans| - 1].start.cno)
  {
    hide Rank, Total;
    EndsWithin(cps, spans, |spans| - 1);
    forall j, k | 0 <= j < |spans| && 0 <= k < |cps| && InSpan(spans[j], cps[k])
      ensures cps[k].cno >= spans[|spans| - 1].start.cno && Age(spans, j, cps[k]) <= budget
    {
      AgeWithin(cps, spans, j, k);
      TotalMonotone(cps, spans, j + 1, |spans|);
      assert SpanOk(cps, spans[j]) && SpanOk(cps, spans[|spans| - 1]);
      assert j < |spans| - 1 ==> After(spans[j], spans[|spans| - 1]);
    }
  }

  /** A budget that ends between two spans: the start of the newer one splits the history. */
  lemma {:induction false} SplitsAtGap(cps: seq<Cpinfo>, spans: seq<Cpspan>, index: nat, budget: int)
    requires SpansOk(cps, spans) && 0 < index < |spans|
    requires Total(spans, index) <= budget < Total(spans, index + 1) - Width(spans[index])
    ensures Splits(cps, spans, budget, spans[index - 1].start.cno)
  {
    hide Rank, Total;
    EndsWithin(cps, spans, index - 1);
    forall j, k | 0 <= j < |spans| && 0 <= k < |cps| && InSpan(spans[j], cps[k])
      ensures cps[k].cno < spans[index - 1].start.cno <==> Age(spans, j, cps[k]) > budget
    {
      SideOfSpan(cps, spans, index, j, k, budget);
      SideOfSpan(cps, spans, index - 1, j, k, budget);
      AgeWithin(cps, spans, j, k);
    }
  }

  /** Checkpoints of the spans on either side of span `index`. */
  lemma {:induction false} SideOfSpan(cps: seq<Cpinfo>, spans: seq<Cpspan>, index: nat, j: nat, k: nat, budget: int)
    requires SpansOk(cps, spans) && index < |spans| && j < |spans| && k < |cps| && InSpan(spans[j], cps[k])
    ensures j < index ==>
            cps[k].cno > spans[index].end.cno && Age(spans, j, cps[k]) <= Total(spans, index + 1) - Width(spans[index])
    ensures j > index ==> cps[k].cno < spans[index].start.cno && Age(spans, j, cps[k]) >= Total(spans, index + 1)
    ensures j == index ==> Age(spans, j, cps[k]) <= Total(spans, index + 1)
  {
    hide Rank, Total;
    AgeWithin(cps, spans, j, k);
    if j < index {
      TotalMonotone(cps, spans, j + 1, index + 1);
      assert After(spans[j], spans[index]);
    } else if j > index {
      TotalMonotone(cps, spans, index + 1, j + 1);
      assert After(spans[index], spans[j]);
    }
  }

  /** A budget that ends inside a span: a number that splits the span by time splits the history. */
  lemma {:induction false} SplitsAtSpan(cps: seq<Cpinfo>, spans: seq<Cpspan>, index: nat, budget: int, cno: nat)
    requires SpansOk(cps, spans) && index < |spans|
    requires Total(spans, index + 1) - Width(spans[index]) <= budget < Total(spans, index + 1)
    requires spans[index].start.cno <= cno <= spans[index].end.cno
    requires forall k :: 0 <= k < |cps| && InSpan(spans[index], cps[k]) ==>
                           (cps[k].cno < cno <==> Age(spans, index, cps[k]) > budget)
    ensures Splits(cps, spans, budget, cno)
  {
    hide Rank, Total, Age, SpansOk;
    EndsWithin(cps, spans, index);
    forall j, k | 0 <= j < |spans| && 0 <= k < |cps| && InSpan(spans[j], cps[k])
      ensures cps[k].cno < cno <==> Age(spans, j, cps[k]) > budget
    {
      SideOfSpan(cps, spans, index, j, k, budget);
    }
  }

  // ----- recording one more checkpoint -----

  lemma {:induction false} SingleSpanOk(cps: seq<Cpinfo>, i: nat)
    requires Ascending(cps) && i < |cps|
    ensures SpanOk(cps, SingleSpan(cps[i])) && Listed(cps, TimeOf(cps[i]))
    ensures Rank(cps, cps[i].cno) == i && Rank(cps, cps[i].cno + 1) == i + 1
  {
    RankOf(cps, i);
    forall k | 0 <= k < |cps| && InSpan(SingleSpan(cps[i]), cps[k]) ensures k == i {
      RankOf(cps, k);
    }
  }

  /** A span may take in the next older checkpoint when its time is not after the start. */
  lemma {:induction false} ExtendDown(cps: seq<Cpinfo>, sp: Cpspan, p: nat)
    requires Ascending(cps) && SpanOk(cps, sp)
    requires 0 < p == Rank(cps, sp.start.cno)
    ensures cps[p - 1].cno < sp.start.cno
    ensures cps[p - 1].create <= sp.start.time ==> SpanOk(cps, Cpspan(TimeOf(cps[p - 1]), sp.end, sp.approxNcp + 1))
  {
    var cp := cps[p - 1];
    RankAt(cps, sp.start.cno, p - 1);
    if cp.create <= sp.start.time {
      var grown := Cpspan(TimeOf(cp), sp.end, sp.approxNcp + 1);
      forall k | 0 <= k < |cps| && InSpan(grown, cps[k])
        ensures k == p - 1 || (k >= p && InSpan(sp, cps[k]))
        ensures NotLater(cps[p - 1], cps[k])
      {
        RankAt(cps, sp.start.cno, k);
        RankOf(cps, p - 1);
        RankAt(cps, cp.cno, k);
      }
    }
  }

  /** A span may take in the next newer checkpoint when its time is not before the end. */
  lemma {:induction false} ExtendUp(cps: seq<Cpinfo>, sp: Cpspan, p: nat)
    requires Ascending(cps) && SpanOk(cps, sp)
    requires p == Rank(cps, sp.end.cno + 1) < |cps|
    ensures sp.end.cno < cps[p].cno
    ensures cps[p].create >= sp.end.time ==> SpanOk(cps, Cpspan(sp.start, TimeOf(cps[p]), sp.approxNcp + 1))
  {
    var cp := cps[p];
    RankAt(cps, sp.end.cno + 1, p);
    if cp.create >= sp.end.time {
      var grown := Cpspan(sp.start, TimeOf(cp), sp.approxNcp + 1);
      forall k | 0 <= k < |cps| && InSpan(grown, cps[k])
        ensures k == p || (k < p && InSpan(sp, cps[k]))
        ensures NotLater(cps[k], cps[p])
      {
        RankAt(cps, sp.end.cno + 1, k);
        RankOf(cps, p);
        RankAt(cps, cp.cno + 1, k);
      }
    }
  }

  /** Replacing the oldest span by one with the same end, or the newest by one with the same start. */
  lemma {:induction false} ReplaceSpan(cps: seq<Cpinfo>, spans: seq<Cpspan>, i: nat, sp: Cpspan)
    requires SpansOk(cps, spans) && SpanOk(cps, sp) && i < |spans|
    requires (i == |spans| - 1 && sp.end == spans[i].end) || (i == 0 && sp.start == spans[0].start)
    ensures SpansOk(cps, spans[i := sp])
    ensures Total(spans[i := sp], |spans|) == Total(spans, |spans|) + Width(sp) - Width(spans[i])
  {
    hide Rank, SpanOk;
    var changed := spans[i := sp];
    forall k, l | 0 <= k < l < |spans| ensures After(changed[k], changed[l]) {
      assert After(spans[k], spans[l]);
    }
    forall k, l | 0 <= k && k + 1 == l < |spans| ensures Meet(cps, changed[k], changed[l]) {
      assert Meet(cps, spans[k], spans[l]);
    }
    if i == 0 && sp.start == spans[0].start {
      TotalNewest(spans, changed, |spans|);
    } else if i > 0 {
      TotalPrefix(spans, changed, i);
    }
  }

  lemma {:induction false} ReplaceIntact(cps: seq<Cpinfo>, spans: seq<Cpspan>, i: nat, sp: Cpspan)
    requires i < |spans|
    requires Intact(cps, spans) ==> Listed(cps, sp.start) && Listed(cps, sp.end)
    requires (i == |spans| - 1 && sp.end == spans[i].end) || (i == 0 && sp.start == spans[0].start)
    ensures Intact(cps, spans) ==> Intact(cps, spans[i := sp])
  {
    hide Listed;
  }

  lemma {:induction false} AppendSpan(cps: seq<Cpinfo>, spans: seq<Cpspan>, sp: Cpspan)
    requires SpansOk(cps, spans) && SpanOk(cps, sp) && spans != []
    requires After(spans[|spans| - 1], sp) && Meet(cps, spans[|spans| - 1], sp)
    ensures SpansOk(cps, spans + [sp])
    ensures Total(spans + [sp], |spans| + 1) ==
            Total(spans, |spans|) + GapOfSpans(sp.end.time, spans[|spans| - 1].start.time) + Width(sp)
  {
    hide Rank, SpanOk, Total, Meet;
    var n := |spans| - 1;
    var grown := spans + [sp];
    InOrder(cps, spans[n]);
    forall k, l | 0 <= k < l < |grown| ensures After(grown[k], grown[l]) {
      assert k < n ==> After(spans[k], spans[n]);
      assert l <= n ==> After(spans[k], spans[l]);
    }
    forall k, l | 0 <= k && k + 1 == l < |grown| ensures Meet(cps, grown[k], grown[l]) {
      assert l <= n ==> Meet(cps, spans[k], spans[l]);
    }
    TotalPrefix(spans, grown, n + 1);
    TotalStep(grown, n + 1);
  }

  lemma {:induction false} InOrder(cps: seq<Cpinfo>, sp: Cpspan)
    requires SpanOk(cps, sp)
    ensures sp.start.cno <= sp.end.cno
  {
  }

  lemma {:induction false} TotalStep(spans: seq<Cpspan>, index: nat)
    requires 0 < index < |spans|
    ensures Total(spans, index + 1) ==
            Total(spans, index) + GapOfSpans(spans[index].end.time, spans[index - 1].start.time) + Width(spans[index])
  {
  }

  lemma {:induction false} InsertSpan(cps: seq<Cpinfo>, spans: seq<Cpspan>, sp: Cpspan)
    requires SpansOk(cps, spans) && SpanOk(cps, sp) && spans != []
    requires After(sp, spans[0]) && Meet(cps, sp, spans[0])
    ensures SpansOk(cps, [sp] + spans)
    ensures Total([sp] + spans, |spans| + 1) ==
            Total(spans, |spans|) + GapOfSpans(spans[0].end.time, sp.start.time) + Width(sp)
  {
    hide Rank, SpanOk, Total, Meet;
    var grown := [sp] + spans;
    InOrder(cps, spans[0]);
    forall k, l | 0 <= k < l < |grown| ensures After(grown[k], grown[l]) {
      assert l > 1 ==> After(spans[0], spans[l - 1]);
      assert k > 0 ==> After(spans[k - 1], spans[l - 1]);
    }
    forall k, l | 0 <= k && k + 1 == l < |grown| ensures Meet(cps, grown[k], grown[l]) {
      assert k > 0 ==> Meet(cps, spans[k - 1], spans[l - 1]);
    }
    TotalInsert(sp, spans, |spans|);
  }

  /** What recording the checkpoint p - 1 below the history does to it. */
  ghost predicate RecordedBelow(cps: seq<Cpinfo>, spans: seq<Cpspan>, p: nat, grown: seq<Cpspan>)
    requires 0 < p <= |cps| && spans != []
  {
    && grown != [] && SpansOk(cps, grown) && Bottom(cps, grown) == p - 1
    && grown[0].end == spans[0].end && grown[|grown| - 1].start == TimeOf(cps[p - 1])
    && Total(grown, |grown|) == Total(spans, |spans|) + GapOfSpans(cps[p - 1].create, spans[|spans| - 1].start.time)
    && (Intact(cps, spans) ==> Intact(cps, grown))
  }

  /** What recording the checkpoint p above the history does to it. */
  ghost predicate RecordedAbove(cps: seq<Cpinfo>, spans: seq<Cpspan>, p: nat, grown: seq<Cpspan>)
    requires p < |cps| && spans != []
  {
    && grown != [] && SpansOk(cps, grown) && Rank(cps, grown[0].end.cno + 1) == p + 1
    && grown[0].end == TimeOf(cps[p]) && grown[|grown| - 1].start == spans[|spans| - 1].start
    && Total(grown, |grown|) == Total(spans, |spans|) + GapOfSpans(spans[0].end.time, cps[p].create)
    && (Intact(cps, spans) ==> Intact(cps, grown) && Top(cps, grown) == p)
  }

  lemma {:induction false} GrowOldest(cps: seq<Cpinfo>, spans: seq<Cpspan>, p: nat)
    requires Ascending(cps) && SpansOk(cps, spans) && spans != []
    requires 0 < p == Bottom(cps, spans)
    requires cps[p - 1].create <= spans[|spans| - 1].start.time
    ensures var last := spans[|spans| - 1];
            RecordedBelow(cps, spans, p, spans[|spans| - 1 := Cpspan(TimeOf(cps[p - 1]), last.end, last.approxNcp + 1)])
  {
    hide SpanOk, Total;
    var last := spans[|spans| - 1];
    SingleSpanOk(cps, p - 1);
    ExtendDown(cps, last, p);
    var grown := Cpspan(TimeOf(cps[p - 1]), last.end, last.approxNcp + 1);
    ReplaceSpan(cps, spans, |spans| - 1, grown);
    ReplaceIntact(cps, spans, |spans| - 1, grown);
  }

  lemma {:induction false} AppendOldest(cps: seq<Cpinfo>, spans: seq<Cpspan>, p: nat)
    requires Ascending(cps) && SpansOk(cps, spans) && spans != []
    requires 0 < p == Bottom(cps, spans)
    ensures RecordedBelow(cps, spans, p, spans + [SingleSpan(cps[p - 1])])
  {
    hide SpanOk, Total;
    var last := spans[|spans| - 1];
    SingleSpanOk(cps, p - 1);
    ExtendDown(cps, last, p);
    AppendSpan(cps, spans, SingleSpan(cps[p - 1]));
  }

  lemma {:induction false} GrowNewest(cps: seq<Cpinfo>, spans: seq<Cpspan>, p: nat)
    requires Ascending(cps) && SpansOk(cps, spans) && spans != []
    requires p == Rank(cps, spans[0].end.cno + 1) < |cps|
    requires cps[p].create >= spans[0].end.time
    ensures RecordedAbove(cps, spans, p, spans[0 := Cpspan(spans[0].start, TimeOf(cps[p]), spans[0].approxNcp + 1)])
  {
    hide SpanOk, Total;
    SingleSpanOk(cps, p);
    ExtendUp(cps, spans[0], p);
    var grown := Cpspan(spans[0].start, TimeOf(cps[p]), spans[0].approxNcp + 1);
    ReplaceSpan(cps, spans, 0, grown);
    ReplaceIntact(cps, spans, 0, grown);
  }

  lemma {:induction false} InsertNewest(cps: seq<Cpinfo>, spans: seq<Cpspan>, p: nat)
    requires Ascending(cps) && SpansOk(cps, spans) && spans != []
    requires p == Rank(cps, spans[0].end.cno + 1) < |cps|
    ensures RecordedAbove(cps, spans, p, [SingleSpan(cps[p])] + spans)
  {
    hide SpanOk, Total;
    SingleSpanOk(cps, p);
    ExtendUp(cps, spans[0], p);
    InsertSpan(cps, spans, SingleSpan(cps[p]));
  }

  /** Keeping the first spans only. */
  lemma {:induction false} KeepFirst(cps: seq<Cpinfo>, spans: seq<Cpspan>, n: nat)
    requires SpansOk(cps, spans) && 1 <= n <= |spans|
    ensures SpansOk(cps, spans[..n]) && Total(spans[..n], n) == Total(spans, n)
    ensures Bottom(cps, spans[..n]) == Rank(cps, spans[n - 1].start.cno)
    ensures Intact(cps, spans) ==> Intact(cps, spans[..n]) && Top(cps, spans[..n]) == Top(cps, spans)
  {
    hide SpanOk, Rank, Listed;
    forall i, j | 0 <= i < j < n ensures After(spans[..n][i], spans[..n][j]) {
      assert After(spans[i], spans[j]);
    }
    forall i, j | 0 <= i && i + 1 == j < n ensures Meet(cps, spans[..n][i], spans[..n][j]) {
      assert Meet(cps, spans[i], spans[j]);
    }
    TotalPrefix(spans, spans[..n], n);
  }

  lemma {:induction false} ShrinkUp(cps: seq<Cpinfo>, sp: Cpspan, k: nat, ncp: nat)
    requires Ascending(cps) && SpanOk(cps, sp) && ncp >= 1 && k < |cps| && InSpan(sp, cps[k])
    ensures SpanOk(cps, Cpspan(TimeOf(cps[k]), sp.end, ncp))
  {
    forall l | 0 <= l < |cps| && InSpan(Cpspan(TimeOf(cps[k]), sp.end, ncp), cps[l])
      ensures k <= l && InSpan(sp, cps[l]) && NotLater(cps[k], cps[l]) && (cps[l].cno == cps[k].cno ==> l == k)
    {
      RankOf(cps, k);
      RankAt(cps, cps[k].cno, l);
      assert k < l ==> Older(cps[k], cps[l]);
    }
  }

  /** Dropping the oldest spans, and letting the oldest one that stays start later. */
  lemma {:induction false} TrimOldest(cps: seq<Cpinfo>, spans: seq<Cpspan>, index: nat, k: nat, ncp: nat)
    requires Ascending(cps) && SpansOk(cps, spans) && index < |spans| && ncp >= 1
    requires k < |cps| && InSpan(spans[index], cps[k])
    ensures var trimmed := spans[..index] + [Cpspan(TimeOf(cps[k]), spans[index].end, ncp)];
            && SpansOk(cps, trimmed) && Bottom(cps, trimmed) == k
            && Total(trimmed, index + 1) == Total(spans, index + 1) - (cps[k].create - spans[index].start.time)
            && (Intact(cps, spans) ==> Intact(cps, trimmed) && Top(cps, trimmed) == Top(cps, spans))
  {
    hide SpanOk, Total, Rank, Listed;
    var sp := Cpspan(TimeOf(cps[k]), spans[index].end, ncp);
    var kept := spans[..index + 1];
    SingleSpanOk(cps, k);
    KeepFirst(cps, spans, index + 1);
    ShrinkUp(cps, spans[index], k, ncp);
    ReplaceSpan(cps, kept, index, sp);
    assert spans[..index] + [sp] == kept[index := sp];
    assert Intact(cps, spans) ==> Listed(cps, spans[index].end);
    ReplaceIntact(cps, kept, index, sp);
  }
}
