/**
The bounded wait of a DNP3 integrity poll, described by what it observed.

Two threads take part. The reactor thread appends points to a list; the caller
reads the length of that list once per pass, until the length has stayed the same
for a quiet interval or a deadline has gone by. A `Wait` records one such wait
among arbitrary interleavings: every arrival with its time, and for each pass the
times of its three atomic reads (loop guard, list length, clock) and the length it
saw. An arrival in the same tick as a read may fall on either side of it.

Times are integer ticks of the monotonic clock.
*/
module Settle {
  import opened Measurements
  import opened Options

  datatype Arrival = Arrival(at: int, point: Point)

  datatype Pass = Pass(guardAt: int, countAt: int, count: nat, nowAt: int)

  datatype Ending = Settled | TimedOut

  datatype Wait = Wait(
    start: int,              // first clock read
    deadline: int,
    quiet: int,
    poll: int,
    arrivals: seq<Arrival>,  // what the list holds when the wait returns
    passes: seq<Pass>,
    ending: Ending,
    end: int)                // clock read that ended the wait

  function Points(arrivals: seq<Arrival>): (points: seq<Point>)
    ensures |points| == |arrivals|
    ensures forall i | 0 <= i < |points| :: points[i] == arrivals[i].point
  {
    seq(|arrivals|, i requires 0 <= i < |arrivals| => arrivals[i].point)
  }

  ghost predicate InOrder(arrivals: seq<Arrival>) {
    forall i, j | 0 <= i < j < |arrivals| :: arrivals[i].at <= arrivals[j].at
  }

  /** The pass counted exactly the arrivals that came before its length read. */
  ghost predicate Sees(arrivals: seq<Arrival>, p: Pass) {
    && p.count <= |arrivals|
    && (forall i | 0 <= i < p.count :: arrivals[i].at <= p.countAt)
    && (forall i | p.count <= i < |arrivals| :: p.countAt <= arrivals[i].at)
  }

  /** First pass of the run of equal counts that pass `k` belongs to. */
  function StableFrom(passes: seq<Pass>, k: nat): (j: nat)
    requires k < |passes|
    ensures j <= k && passes[j].count == passes[k].count
    ensures j > 0 ==> passes[j - 1].count != passes[j].count
  {
    if k > 0 && passes[k - 1].count == passes[k].count then StableFrom(passes, k - 1) else k
  }

  /** The test that lets the wait return early at pass `k`. */
  predicate QuietAt(passes: seq<Pass>, k: nat, quiet: int)
    requires k < |passes|
  {
    var j := StableFrom(passes, k);
    j < k && passes[k].count > 0 && passes[k].nowAt - passes[j].nowAt >= quiet
  }

  /** Passes happen in program order, each one below the deadline, one sleep apart. */
  ghost predicate Timed(passes: seq<Pass>, start: int, deadline: int, poll: int) {
    && (forall k | 0 <= k < |passes| ::
          && start <= passes[k].guardAt <= passes[k].countAt <= passes[k].nowAt
          && passes[k].guardAt < deadline)
    && (forall j, k | 0 <= j < k < |passes| && k == j + 1 ::
          && passes[j].nowAt + poll <= passes[k].guardAt
          && passes[j].count <= passes[k].count)
  }

  ghost predicate Valid(w: Wait) {
    && InOrder(w.arrivals)
    && Timed(w.passes, w.start, w.deadline, w.poll)
    && (forall k | 0 <= k < |w.passes| :: Sees(w.arrivals, w.passes[k]))
    && (forall k | 0 <= k < |w.passes| - 1 :: !QuietAt(w.passes, k, w.quiet))
    && (forall i | 0 <= i < |w.arrivals| :: w.arrivals[i].at <= w.end)
    && match w.ending
       case Settled =>
         && |w.passes| > 0
         && QuietAt(w.passes, |w.passes| - 1, w.quiet)
         && w.end == w.passes[|w.passes| - 1].nowAt
       case TimedOut =>
         && w.deadline <= w.end
         && w.start <= w.end
         && (|w.passes| > 0 ==>
               && !QuietAt(w.passes, |w.passes| - 1, w.quiet)
               && w.passes[|w.passes| - 1].nowAt + w.poll <= w.end)
  }

  /** Reading the clock follows reading the length by at most `skew` ticks. */
  ghost predicate SkewAtMost(w: Wait, skew: int) {
    forall k | 0 <= k < |w.passes| :: w.passes[k].nowAt - w.passes[k].countAt <= skew
  }

  ghost predicate GapsAtMost(arrivals: seq<Arrival>, gap: int) {
    forall i, j | 0 <= i < j < |arrivals| && j == i + 1 :: arrivals[j].at - arrivals[i].at <= gap
  }

  /** Arrivals that come once the wait has returned. */
  ghost predicate After(later: seq<Arrival>, t: int) {
    InOrder(later) && forall i | 0 <= i < |later| :: t <= later[i].at
  }

  // ----- an early return -----

  lemma {:induction false} PassesInOrder(w: Wait, j: nat, k: nat)
    requires Valid(w) && w.poll >= 0
    requires j <= k < |w.passes|
    ensures w.passes[j].nowAt + (if j < k then w.poll else 0) <= w.passes[k].nowAt
    ensures w.passes[j].countAt <= w.passes[k].countAt
    ensures j < k ==> w.passes[j].nowAt + w.poll <= w.passes[k].guardAt
    decreases k - j
  {
    if j < k {
      PassesInOrder(w, j, k - 1);
    }
  }

  /**
  An early return saw at least one point, and no point arrived strictly inside an
  interval that ends at the last length read and lasts the quiet interval less the
  skew of that one pass.
  */
  lemma SettleSoundness(w: Wait)
    requires Valid(w) && w.ending == Settled && w.poll >= 0
    ensures
      var last := w.passes[|w.passes| - 1];
      var first := w.passes[StableFrom(w.passes, |w.passes| - 1)];
      && last.count > 0
      && last.countAt - first.countAt >= w.quiet - (last.nowAt - last.countAt)
      && last.countAt - first.countAt >= w.poll
      && forall i | 0 <= i < |w.arrivals| ::
           w.arrivals[i].at <= first.countAt || last.countAt <= w.arrivals[i].at
  {
    var n := |w.passes| - 1;
    var j := StableFrom(w.passes, n);
    PassesInOrder(w, j, n);
    assert Sees(w.arrivals, w.passes[j]) && Sees(w.arrivals, w.passes[n]);
  }

  // ----- completeness -----

  /** Between the last point an early return counted and the next one lies a long gap. */
  lemma GapAtReturn(w: Wait, later: seq<Arrival>, skew: int)
    requires Valid(w) && w.ending == Settled && w.poll >= 0 && After(later, w.end)
    requires SkewAtMost(w, skew)
    requires w.passes[|w.passes| - 1].count < |w.arrivals + later|
    ensures
      var all, c := w.arrivals + later, w.passes[|w.passes| - 1].count;
      && c > 0
      && all[c].at - all[c - 1].at >= w.quiet - skew
      && all[c].at - all[c - 1].at >= w.poll
  {
    hide QuietAt, StableFrom;
    SettleSoundness(w);
    var last := w.passes[|w.passes| - 1];
    var first := w.passes[StableFrom(w.passes, |w.passes| - 1)];
    assert Sees(w.arrivals, first) && Sees(w.arrivals, last);
    assert last.countAt <= last.nowAt == w.end;
  }

  /** Nothing can arrive any more once the wait has returned. */
  lemma PollComplete(w: Wait, later: seq<Arrival>, gap: int, skew: int)
    requires Valid(w) && w.poll >= 0 && After(later, w.end)
    requires SkewAtMost(w, skew)
    requires GapsAtMost(w.arrivals + later, gap)
    requires forall i | 0 <= i < |later| :: later[i].at < w.deadline
    requires Bounded(w.quiet, w.poll, gap, skew)
    ensures later == []
  {
    if later != [] {
      var first := later[0];
      if w.ending == Settled {
        GapAtReturn(w, later, skew);
      }
    }
  }

  /**
  Gaps and skew stay within these limits, `all` being every arrival from the clear
  before the wait to whenever one cares to look, and nothing comes after the deadline
  that the wait did not see.
  */
  ghost predicate Mild(w: Wait, all: seq<Arrival>, gap: int, skew: int) {
    && SkewAtMost(w, skew)
    && GapsAtMost(all, gap)
    && (forall i | |w.arrivals| <= i < |all| :: all[i].at < w.deadline)
  }

  /** Limits that the thresholds of the wait can deal with. */
  predicate Bounded(quiet: int, poll: int, gap: int, skew: int) {
    gap + skew < quiet || gap < poll
  }

  lemma TailComesAfter(a: seq<Arrival>, polled: seq<Arrival>, all: seq<Arrival>, t: int)
    requires Grew(a, polled, t) && Grew(polled, all, t) && InOrder(all)
    ensures a + all[|a|..] == all && After(all[|a|..], t)
  {
  }

  /** `polled` is what the poll copied from the list some time after its wait. */
  lemma NothingMissed(w: Wait, polled: seq<Arrival>, all: seq<Arrival>, gap: int, skew: int)
    requires Valid(w) && w.poll >= 0 && Mild(w, all, gap, skew) && Bounded(w.quiet, w.poll, gap, skew)
    requires Grew(w.arrivals, polled, w.end) && Grew(polled, all, w.end) && InOrder(all)
    ensures polled == all
  {
    TailComesAfter(w.arrivals, polled, all, w.end);
    PollComplete(w, all[|w.arrivals|..], gap, skew);
  }

  // ----- latency -----

  /** No pass takes longer than `cycle`, the first one and the exit included. */
  ghost predicate Paced(w: Wait, cycle: int) {
    && (|w.passes| > 0 ==> w.passes[0].guardAt <= w.start + cycle && w.passes[0].countAt <= w.start + cycle)
    && (forall j, k | 0 <= j < k < |w.passes| && k == j + 1 ::
          && w.passes[k].countAt <= w.passes[j].countAt + cycle
          && w.passes[k].nowAt <= w.passes[j].nowAt + cycle)
    && (w.ending == TimedOut ==>
          w.end <= (if |w.passes| > 0 then w.passes[|w.passes| - 1].guardAt else w.start) + cycle)
  }

  function LastArrival(w: Wait): int {
    if |w.arrivals| > 0 && w.arrivals[|w.arrivals| - 1].at > w.start
    then w.arrivals[|w.arrivals| - 1].at
    else w.start
  }

  lemma ArrivedByLast(w: Wait, i: nat)
    requires Valid(w) && i < |w.arrivals|
    ensures w.arrivals[i].at <= LastArrival(w)
  {
  }

  /** When the count grows from one pass to the next, something arrived after the first of them. */
  lemma ArrivedBetween(w: Wait, j: nat)
    requires Valid(w) && 0 < j < |w.passes| && w.passes[j - 1].count != w.passes[j].count
    ensures w.passes[j - 1].countAt <= LastArrival(w)
  {
    var i := w.passes[j - 1].count;
    assert Sees(w.arrivals, w.passes[j]) && Sees(w.arrivals, w.passes[j - 1]);
    ArrivedByLast(w, i);
  }

  /** A run of equal counts starts within one pass of the last arrival. */
  lemma StableSoon(w: Wait, k: nat, cycle: int)
    requires Valid(w) && Paced(w, cycle) && cycle >= 0 && k < |w.passes|
    ensures w.passes[StableFrom(w.passes, k)].countAt <= LastArrival(w) + cycle
  {
    hide Valid;
    var j := StableFrom(w.passes, k);
    if j > 0 {
      ArrivedBetween(w, j);
    }
  }

  /** A pass that did not end the wait comes soon after the last arrival. */
  lemma LastUnsettledPass(w: Wait, k: nat, cycle: int, skew: int)
    requires Valid(w) && Paced(w, cycle) && SkewAtMost(w, skew)
    requires w.quiet > 0 && cycle >= 0 && w.arrivals != []
    requires k < |w.passes| && !QuietAt(w.passes, k, w.quiet)
    ensures w.passes[k].nowAt < LastArrival(w) + cycle + skew + w.quiet
  {
    StableSoon(w, k, cycle);
    if w.passes[k].count == 0 {
      assert Sees(w.arrivals, w.passes[k]);
      ArrivedByLast(w, 0);
    }
  }

  /** The wait is never over later than one pass after the deadline. */
  lemma EndsByDeadline(w: Wait, cycle: int)
    requires Valid(w) && Paced(w, cycle)
    requires w.poll >= 0 && cycle > 0 && w.start <= w.deadline
    ensures w.ending == TimedOut ==> w.deadline <= w.end
    ensures w.end <= w.deadline + cycle && (w.start < w.deadline ==> w.end < w.deadline + cycle)
  {
    var n := |w.passes|;
    if w.ending == Settled {
      assert n > 1 && w.passes[n - 2].nowAt + w.poll <= w.passes[n - 1].guardAt;
    }
  }

  /**
  The wait returns within two passes of the moment the points have been quiet long
  enough, and within one of the deadline. With nothing received it runs to the deadline.
  */
  lemma SettleLatency(w: Wait, cycle: int, skew: int)
    requires Valid(w) && Paced(w, cycle) && SkewAtMost(w, skew)
    requires w.poll >= 0 && w.quiet > 0 && cycle > 0 && skew >= 0
    ensures w.arrivals != [] ==> w.end < LastArrival(w) + w.quiet + 2 * cycle + skew
    ensures w.arrivals == [] ==> w.ending == TimedOut && w.deadline <= w.end
    ensures w.start < w.deadline ==> w.end < w.deadline + cycle
  {
    if w.start < w.deadline {
      EndsByDeadline(w, cycle);
    }
    var n := |w.passes|;
    if n > 0 {
      assert Sees(w.arrivals, w.passes[n - 1]);
    }
    if w.arrivals != [] {
      if w.ending == Settled {
        LastUnsettledPass(w, n - 2, cycle, skew);
      } else if n > 0 {
        LastUnsettledPass(w, n - 1, cycle, skew);
      }
    }
  }

  /** Sleeps last exactly `poll`, and everything else takes no time. */
  ghost predicate Exact(w: Wait) {
    && (forall k | 0 <= k < |w.passes| ::
          w.passes[k].guardAt == w.passes[k].countAt == w.passes[k].nowAt == w.start + k * w.poll)
    && (w.ending == TimedOut ==> w.end == w.start + |w.passes| * w.poll)
  }

  lemma {:induction false} OneSleepLater(w: Wait, j: nat)
    requires Exact(w) && j + 1 < |w.passes|
    ensures w.passes[j + 1].countAt == w.passes[j].countAt + w.poll
    ensures w.passes[j + 1].nowAt == w.passes[j].nowAt + w.poll
  {
    assert (j + 1) * w.poll == j * w.poll + w.poll;
  }

  lemma ExactIsPaced(w: Wait)
    requires Exact(w) && w.poll > 0
    ensures Paced(w, w.poll) && SkewAtMost(w, 0)
  {
    var n := |w.passes|;
    forall j, k | 0 <= j < k < n && k == j + 1
      ensures w.passes[k].countAt == w.passes[j].countAt + w.poll && w.passes[k].nowAt == w.passes[j].nowAt + w.poll
    {
      OneSleepLater(w, j);
    }
    if n > 0 {
      assert n * w.poll == (n - 1) * w.poll + w.poll;
    }
  }

  /** On exact sleeps: within two sleeps of settling, and within one of the deadline. */
  lemma ExactLatency(w: Wait)
    requires Valid(w) && Exact(w) && w.poll > 0 && w.quiet > 0 && w.start <= w.deadline
    ensures w.arrivals != [] ==> w.end < LastArrival(w) + w.quiet + 2 * w.poll
    ensures w.arrivals == [] ==> w.ending == TimedOut && w.deadline <= w.end
    ensures w.end < w.deadline + w.poll
  {
    ExactIsPaced(w);
    SettleLatency(w, w.poll, 0);
    PassesTakeTime(w);
  }

  lemma PassesTakeTime(w: Wait)
    requires Valid(w)
    ensures w.passes != [] ==> w.start < w.deadline
  {
    if w.passes != [] {
      assert w.passes[0].guardAt < w.deadline;
    }
  }

  /** However the clock runs, sleeping bounds the number of passes by the timeout. */
  lemma {:induction false} PassesBounded(w: Wait)
    requires Valid(w) && w.poll > 0 && w.passes != []
    ensures (|w.passes| - 1) * w.poll < w.deadline - w.start
  {
    PassesSpan(w, |w.passes| - 1);
  }

  lemma {:induction false} PassesSpan(w: Wait, k: nat)
    requires Valid(w) && w.poll > 0 && k < |w.passes|
    ensures w.start + k * w.poll <= w.passes[k].guardAt
  {
    if k > 0 {
      PassesSpan(w, k - 1);
      assert k * w.poll == (k - 1) * w.poll + w.poll;
    }
  }

  // ----- the loop, pass by pass -----

  /** The passes so far are timed, and each saw the arrivals it should have seen. */
  ghost predicate Observed(w: Wait) {
    && Timed(w.passes, w.start, w.deadline, w.poll)
    && forall k | 0 <= k < |w.passes| :: Sees(w.arrivals, w.passes[k])
  }

  ghost predicate NeverQuiet(passes: seq<Pass>, quiet: int) {
    forall k | 0 <= k < |passes| :: !QuietAt(passes, k, quiet)
  }

  /** What the loop's variables mean when its guard reads the clock at `guard`. */
  ghost predicate Running(w: Wait, lastCount: int, stableSince: int, guard: int) {
    var n := |w.passes|;
    && Observed(w)
    && NeverQuiet(w.passes, w.quiet)
    && w.start <= guard
    && (n == 0 ==> lastCount == -1)
    && (n > 0 ==>
          && lastCount == w.passes[n - 1].count
          && stableSince == w.passes[StableFrom(w.passes, n - 1)].nowAt
          && w.passes[n - 1].nowAt + w.poll <= guard)
  }

  lemma {:induction false} StableFromPrefix(passes: seq<Pass>, p: Pass, k: nat)
    requires k < |passes|
    ensures StableFrom(passes + [p], k) == StableFrom(passes, k)
  {
    if k > 0 && passes[k - 1].count == passes[k].count {
      StableFromPrefix(passes, p, k - 1);
    }
  }

  /** Arrivals `b` extend `a`, and whatever is new came at or after `from`. */
  ghost predicate Grew(a: seq<Arrival>, b: seq<Arrival>, from: int) {
    a <= b && forall i | |a| <= i < |b| :: from <= b[i].at
  }

  /** Arrivals that come after every length read so far do not disturb the passes. */
  lemma MoreArrivals(w: Wait, arrivals: seq<Arrival>, from: int)
    requires Observed(w) && w.poll >= 0
    requires w.passes != [] ==> w.passes[|w.passes| - 1].countAt <= from
    requires Grew(w.arrivals, arrivals, from)
    ensures Observed(w.(arrivals := arrivals))
  {
    forall k | 0 <= k < |w.passes| ensures Sees(arrivals, w.passes[k]) {
      PassesAscend(w, k, |w.passes| - 1);
      assert Sees(w.arrivals, w.passes[k]);
    }
  }

  lemma {:induction false} PassesAscend(w: Wait, j: nat, k: nat)
    requires Timed(w.passes, w.start, w.deadline, w.poll) && w.poll >= 0
    requires j <= k < |w.passes|
    ensures w.passes[j].countAt <= w.passes[k].countAt
    decreases k - j
  {
    if j < k {
      PassesAscend(w, j, k - 1);
    }
  }

  lemma QuietPrefix(passes: seq<Pass>, p: Pass, quiet: int)
    ensures forall k | 0 <= k < |passes| :: QuietAt(passes + [p], k, quiet) == QuietAt(passes, k, quiet)
  {
    forall k | 0 <= k < |passes| ensures QuietAt(passes + [p], k, quiet) == QuietAt(passes, k, quiet) {
      StableFromPrefix(passes, p, k);
    }
  }

  /** The branch the loop takes on its variables is the early-return test on the passes. */
  lemma OnePass(w: Wait, p: Pass, lastCount: int, stableSince: int, guard: int)
    requires Running(w, lastCount, stableSince, guard)
    ensures
      var passes, n := w.passes + [p], |w.passes|;
      && QuietAt(passes, n, w.quiet) == Settles(p, lastCount, stableSince, w.quiet)
      && passes[StableFrom(passes, n)].nowAt == (if p.count == lastCount then stableSince else p.nowAt)
  {
    hide Observed, NeverQuiet;
    var passes, n := w.passes + [p], |w.passes|;
    if n > 0 {
      StableFromPrefix(w.passes, p, n - 1);
      assert passes[n - 1] == w.passes[n - 1];
    }
    assert StableFrom(passes, n) == if p.count == lastCount then StableFrom(passes, n - 1) else n;
  }

  /** One more pass, whose length read saw every arrival so far. */
  lemma PassAdded(w: Wait, p: Pass)
    requires Observed(w)
    requires w.start <= p.guardAt < w.deadline && p.guardAt <= p.countAt <= p.nowAt
    requires w.passes != [] ==> w.passes[|w.passes| - 1].nowAt + w.poll <= p.guardAt
    requires p.count == |w.arrivals|
    requires forall i | 0 <= i < |w.arrivals| :: w.arrivals[i].at <= p.countAt
    ensures Observed(w.(passes := w.passes + [p]))
  {
    var passes := w.passes + [p];
    forall k | 0 <= k < |passes| ensures Sees(w.arrivals, passes[k]) {
      assert k < |w.passes| ==> Sees(w.arrivals, w.passes[k]);
    }
    assert w.passes != [] ==> Sees(w.arrivals, w.passes[|w.passes| - 1]);
  }

  /** Whether the loop returns after a pass. */
  predicate Settles(p: Pass, lastCount: int, stableSince: int, quiet: int) {
    p.count == lastCount && p.count > 0 && p.nowAt - stableSince >= quiet
  }

  /** `w` before the pass, `v` the same wait with the arrivals up to the end of the pass. */
  ghost predicate PassDone(w: Wait, v: Wait, p: Pass) {
    && v == w.(arrivals := v.arrivals)
    && InOrder(v.arrivals)
    && Observed(v.(passes := w.passes + [p]))
    && forall i | 0 <= i < |v.arrivals| :: v.arrivals[i].at <= p.nowAt
  }

  /** The points counted came after the guard, and the ones seen since came after the count. */
  lemma PassTaken(w: Wait, counted: seq<Arrival>, later: seq<Arrival>, p: Pass)
    requires Observed(w) && w.poll >= 0
    requires w.start <= p.guardAt < w.deadline && p.guardAt <= p.countAt <= p.nowAt
    requires w.passes != [] ==> w.passes[|w.passes| - 1].nowAt + w.poll <= p.guardAt
    requires Grew(w.arrivals, counted, p.guardAt) && Grew(counted, later, p.countAt)
    requires p.count == |counted| && InOrder(later)
    requires forall i | 0 <= i < |counted| :: counted[i].at <= p.countAt
    requires forall i | 0 <= i < |later| :: later[i].at <= p.nowAt
    ensures PassDone(w, w.(arrivals := later), p)
  {
    MoreArrivals(w, counted, p.guardAt);
    PassAdded(w.(arrivals := counted), p);
    MoreArrivals(w.(arrivals := counted, passes := w.passes + [p]), later, p.countAt);
  }

  /** Leaving the loop from its early return. */
  lemma ReturnsSettled(w: Wait, v: Wait, p: Pass, lastCount: int, stableSince: int)
    requires Running(w, lastCount, stableSince, p.guardAt) && PassDone(w, v, p)
    requires Settles(p, lastCount, stableSince, w.quiet)
    ensures Valid(v.(passes := w.passes + [p], ending := Settled, end := p.nowAt))
  {
    hide QuietAt, Valid, Timed, Sees, InOrder, StableFrom;
    OnePass(w, p, lastCount, stableSince, p.guardAt);
    QuietPrefix(w.passes, p, w.quiet);
    SettledValid(v.(passes := w.passes + [p], ending := Settled, end := p.nowAt));
  }

  lemma SettledValid(w: Wait)
    requires InOrder(w.arrivals) && Observed(w) && w.ending == Settled && w.passes != []
    requires forall k | 0 <= k < |w.passes| - 1 :: !QuietAt(w.passes, k, w.quiet)
    requires QuietAt(w.passes, |w.passes| - 1, w.quiet)
    requires w.end == w.passes[|w.passes| - 1].nowAt
    requires forall i | 0 <= i < |w.arrivals| :: w.arrivals[i].at <= w.end
    ensures Valid(w)
  {
  }

  /** A pass that did not settle leads, after its sleep, to the next reading of the guard. */
  lemma LoopsOn(w: Wait, v: Wait, p: Pass, lastCount: int, stableSince: int, arrivals: seq<Arrival>, guard: int)
    requires Running(w, lastCount, stableSince, p.guardAt) && PassDone(w, v, p) && w.poll >= 0
    requires !Settles(p, lastCount, stableSince, w.quiet)
    requires Grew(v.arrivals, arrivals, p.nowAt) && p.nowAt + w.poll <= guard
    ensures Running(v.(arrivals := arrivals, passes := w.passes + [p]), p.count,
                    if p.count == lastCount then stableSince else p.nowAt, guard)
  {
    hide QuietAt, Sees, StableFrom;
    OnePass(w, p, lastCount, stableSince, p.guardAt);
    QuietPrefix(w.passes, p, w.quiet);
    MoreArrivals(v.(passes := w.passes + [p]), arrivals, p.nowAt);
  }

  /** Leaving the loop because its guard found the deadline gone by. */
  lemma ReturnsTimedOut(w: Wait, lastCount: int, stableSince: int, guard: int)
    requires InOrder(w.arrivals) && Running(w, lastCount, stableSince, guard)
    requires w.deadline <= guard
    requires forall i | 0 <= i < |w.arrivals| :: w.arrivals[i].at <= guard
    ensures Valid(w.(ending := TimedOut, end := guard))
  {
  }
}
