/**
An integrity poll on a script of the reactor: what each step of the caller observes
and what the poll returns, and why every such run is a valid `Wait`.
*/
module SettleRun {
  import opened Options
  import opened Measurements
  import opened ReactorScript
  import opened Settle

  /** One poll, its thresholds and the script it runs against. */
  datatype Setting = Setting(script: Script, fed: bool, quiet: int, poll: nat)

  function Next(x: Setting, m: Moment): (n: Moment)
    ensures m.clock <= n.clock && |m.arrivals| <= |n.arrivals|
  {
    Batch(x.script, x.fed, m)
  }

  /** The guard of the next pass reads the clock: a sleep, then the read. */
  function NextGuard(x: Setting, m: Moment): (n: Moment)
    ensures m.clock + x.poll <= n.clock && |m.arrivals| <= |n.arrivals|
  {
    Next(x, Asleep(x.script, x.fed, m, x.poll))
  }

  /** What was received since the list was cleared. */
  function Since(m: Moment, mark: nat): seq<Arrival>
    requires mark <= |m.arrivals|
  {
    m.arrivals[mark..]
  }

  function PassFrom(x: Setting, g: Moment, mark: nat): Pass
    requires mark <= |g.arrivals|
  {
    var c := Next(x, g);
    Pass(g.clock, c.clock, |c.arrivals| - mark, Next(x, c).clock)
  }

  /** The wait from the guard read at `g` on; `w` holds the passes made before. */
  function Loop(x: Setting, g: Moment, mark: nat, w: Wait, lastCount: int, stableSince: int): (Wait, Moment)
    requires x.poll > 0 && mark <= |g.arrivals|
    decreases w.deadline - g.clock
  {
    if g.clock >= w.deadline then (w.(arrivals := Since(g, mark), ending := TimedOut, end := g.clock), g)
    else
      var p, n := PassFrom(x, g, mark), Next(x, Next(x, g));
      var v := w.(passes := w.passes + [p]);
      if Settles(p, lastCount, stableSince, x.quiet) then
        (v.(arrivals := Since(n, mark), ending := Settled, end := p.nowAt), n)
      else
        Loop(x, NextGuard(x, n), mark, v, p.count, if p.count == lastCount then stableSince else p.nowAt)
  }

  /** One pass of the loop, and its end. */
  lemma LoopSteps(x: Setting, g: Moment, mark: nat, w: Wait, lastCount: int, stableSince: int)
    requires x.poll > 0 && mark <= |g.arrivals|
    ensures g.clock >= w.deadline ==>
      Loop(x, g, mark, w, lastCount, stableSince) ==
        (w.(arrivals := Since(g, mark), ending := TimedOut, end := g.clock), g)
    ensures g.clock < w.deadline ==>
      var p, n := PassFrom(x, g, mark), Next(x, Next(x, g));
      var v := w.(passes := w.passes + [p]);
      Loop(x, g, mark, w, lastCount, stableSince) ==
        if Settles(p, lastCount, stableSince, x.quiet)
        then (v.(arrivals := Since(n, mark), ending := Settled, end := p.nowAt), n)
        else Loop(x, NextGuard(x, n), mark, v, p.count, if p.count == lastCount then stableSince else p.nowAt)
  {
  }

  /** The wait before its first pass. */
  function Begun(x: Setting, m: Moment, timeout: int): Wait {
    var start := Next(x, m).clock;
    Wait(start, start + Max(0, timeout), x.quiet, x.poll, [], [], TimedOut, start)
  }

  /** The first read of the guard: the third clock read of all. */
  function FirstGuard(x: Setting, m: Moment): (g: Moment)
    ensures m.clock <= g.clock && |m.arrivals| <= |g.arrivals|
  {
    Next(x, Next(x, Next(x, m)))
  }

  /** The whole wait, from the read that fixes the deadline on. */
  function Scan(x: Setting, m: Moment, mark: nat, timeout: int): (Wait, Moment)
    requires x.poll > 0 && mark <= |m.arrivals|
  {
    Loop(x, FirstGuard(x, m), mark, Begun(x, m, timeout), -1, Next(x, Next(x, m)).clock)
  }

  /** The wait ended at `n`, and was a valid one over exactly the points received by then. */
  ghost predicate Ended(m: Moment, mark: nat, w: Wait, n: Moment)
    requires mark <= |m.arrivals|
  {
    && Consistent(n) && Onward(m, n) && OnlyHeard(m, n)
    && Valid(w) && w.arrivals == Since(n, mark) && w.end == n.clock
  }

  lemma SinceGrows(m: Moment, n: Moment, mark: nat)
    requires Onward(m, n) && mark <= |m.arrivals|
    ensures Grew(Since(m, mark), Since(n, mark), m.clock)
  {
    forall i | |Since(m, mark)| <= i < |Since(n, mark)| ensures m.clock <= Since(n, mark)[i].at {
      assert Since(n, mark)[i] == n.arrivals[mark + i];
    }
  }

  lemma SinceInOrder(m: Moment, mark: nat)
    requires Consistent(m) && mark <= |m.arrivals|
    ensures InOrder(Since(m, mark))
    ensures forall i | 0 <= i < |Since(m, mark)| :: Since(m, mark)[i].at <= m.clock
  {
  }

  /** Two steps of the caller, or a sleep and a step. */
  lemma TwoSteps(x: Setting, m: Moment)
    requires Consistent(m)
    ensures var n := Next(x, m);
      Consistent(n) && Onward(m, n) && OnlyHeard(m, n)
    ensures var n := Next(x, Next(x, m));
      Consistent(n) && Onward(m, n) && Onward(Next(x, m), n) && OnlyHeard(m, n)
    ensures var n := NextGuard(x, m);
      Consistent(n) && Onward(m, n) && OnlyHeard(m, n)
  {
    var a, s := Next(x, m), Asleep(x.script, x.fed, m, x.poll);
    BatchMeans(x.script, x.fed, m);
    BatchMeans(x.script, x.fed, a);
    OnwardTwice(m, a, Next(x, a));
    AsleepMeans(x.script, x.fed, m, x.poll);
    BatchMeans(x.script, x.fed, s);
    OnwardTwice(m, s, Next(x, s));
  }

  /** A pass of the loop is one that the theory of waits knows. */
  lemma PassIsDone(x: Setting, g: Moment, mark: nat, w: Wait)
    requires Consistent(g) && mark <= |g.arrivals| && w.poll == x.poll > 0
    requires Observed(w) && w.arrivals == Since(g, mark) && w.start <= g.clock < w.deadline
    requires w.passes != [] ==> w.passes[|w.passes| - 1].nowAt + w.poll <= g.clock
    ensures PassDone(w, w.(arrivals := Since(Next(x, Next(x, g)), mark)), PassFrom(x, g, mark))
  {
    var c := Next(x, g);
    var n := Next(x, c);
    TwoSteps(x, g);
    TwoSteps(x, c);
    SinceGrows(g, c, mark);
    SinceGrows(c, n, mark);
    SinceInOrder(c, mark);
    SinceInOrder(n, mark);
    PassTaken(w, Since(c, mark), Since(n, mark), PassFrom(x, g, mark));
  }

  lemma {:induction false} LoopEnds(x: Setting, m: Moment, g: Moment, mark: nat,
                                    w: Wait, lastCount: int, stableSince: int)
    requires x.poll > 0 && mark <= |m.arrivals| <= |g.arrivals|
    requires Consistent(g) && Onward(m, g) && OnlyHeard(m, g)
    requires w.poll == x.poll && w.quiet == x.quiet
    requires Running(w.(arrivals := Since(g, mark)), lastCount, stableSince, g.clock)
    ensures var (v, n) := Loop(x, g, mark, w, lastCount, stableSince); Ended(m, mark, v, n)
    decreases w.deadline - g.clock
  {
    hide Ended, Running, PassDone, PassFrom, Next, NextGuard, Onward, OnlyHeard, Consistent, Observed;
    var u := w.(arrivals := Since(g, mark));
    if g.clock >= w.deadline {
      LoopTimesOut(m, g, mark, u, lastCount, stableSince);
    } else {
      var p, n := PassFrom(x, g, mark), Next(x, Next(x, g));
      RunningMeans(u, lastCount, stableSince, g.clock);
      PassTimes(x, g, mark);
      PassIsDone(x, g, mark, u);
      TwoSteps(x, g);
      OnwardTwice(m, g, n);
      if Settles(p, lastCount, stableSince, w.quiet) {
        LoopSettles(m, n, mark, u, p, lastCount, stableSince);
      } else {
        LoopGoesOn(x, m, n, mark, u, p, lastCount, stableSince);
        LoopEnds(x, m, NextGuard(x, n), mark, w.(passes := w.passes + [p]), p.count,
                 if p.count == lastCount then stableSince else p.nowAt);
      }
    }
  }

  lemma PassTimes(x: Setting, g: Moment, mark: nat)
    requires mark <= |g.arrivals|
    ensures PassFrom(x, g, mark).guardAt == g.clock && PassFrom(x, g, mark).nowAt == Next(x, Next(x, g)).clock
  {
  }

  lemma RunningMeans(w: Wait, lastCount: int, stableSince: int, guard: int)
    requires Running(w, lastCount, stableSince, guard)
    ensures Observed(w) && w.start <= guard
    ensures w.passes != [] ==> w.passes[|w.passes| - 1].nowAt + w.poll <= guard
  {
  }

  lemma LoopTimesOut(m: Moment, g: Moment, mark: nat, u: Wait, lastCount: int, stableSince: int)
    requires mark <= |m.arrivals| && Consistent(g) && Onward(m, g) && OnlyHeard(m, g)
    requires u.arrivals == Since(g, mark) && Running(u, lastCount, stableSince, g.clock) && u.deadline <= g.clock
    ensures Ended(m, mark, u.(ending := TimedOut, end := g.clock), g)
  {
    SinceInOrder(g, mark);
    ReturnsTimedOut(u, lastCount, stableSince, g.clock);
  }

  lemma LoopSettles(m: Moment, n: Moment, mark: nat, u: Wait, p: Pass, lastCount: int, stableSince: int)
    requires mark <= |m.arrivals| && Consistent(n) && Onward(m, n) && OnlyHeard(m, n) && p.nowAt == n.clock
    requires Running(u, lastCount, stableSince, p.guardAt) && PassDone(u, u.(arrivals := Since(n, mark)), p)
    requires Settles(p, lastCount, stableSince, u.quiet)
    ensures
      var w := u.(arrivals := Since(n, mark), passes := u.passes + [p], ending := Settled, end := p.nowAt);
      Ended(m, mark, w, n)
  {
    ReturnsSettled(u, u.(arrivals := Since(n, mark)), p, lastCount, stableSince);
  }

  lemma LoopGoesOn(x: Setting, m: Moment, n: Moment, mark: nat, w: Wait, p: Pass, lastCount: int, stableSince: int)
    requires x.poll > 0 && w.poll == x.poll && mark <= |m.arrivals|
    requires Consistent(n) && Onward(m, n) && OnlyHeard(m, n)
    requires Running(w, lastCount, stableSince, p.guardAt) && PassDone(w, w.(arrivals := Since(n, mark)), p)
    requires p.nowAt == n.clock && !Settles(p, lastCount, stableSince, w.quiet)
    ensures
      var h := NextGuard(x, n);
      && Consistent(h) && Onward(m, h) && OnlyHeard(m, h)
      && Running(w.(arrivals := Since(h, mark), passes := w.passes + [p]), p.count,
                 if p.count == lastCount then stableSince else p.nowAt, h.clock)
  {
    var h := NextGuard(x, n);
    TwoSteps(x, n);
    OnwardTwice(m, n, h);
    SinceGrows(n, h, mark);
    LoopsOn(w, w.(arrivals := Since(n, mark)), p, lastCount, stableSince, Since(h, mark), h.clock);
  }

  lemma {:induction false} LoopKeepsTerms(x: Setting, g: Moment, mark: nat, w: Wait, lastCount: int, stableSince: int)
    requires x.poll > 0 && mark <= |g.arrivals|
    ensures
      var v := Loop(x, g, mark, w, lastCount, stableSince).0;
      v.start == w.start && v.deadline == w.deadline && v.quiet == w.quiet && v.poll == w.poll
    decreases w.deadline - g.clock
  {
    if g.clock < w.deadline {
      var p, n := PassFrom(x, g, mark), Next(x, Next(x, g));
      if !Settles(p, lastCount, stableSince, x.quiet) {
        LoopKeepsTerms(x, NextGuard(x, n), mark, w.(passes := w.passes + [p]), p.count,
                       if p.count == lastCount then stableSince else p.nowAt);
      }
    }
  }

  lemma BeginsWell(x: Setting, m: Moment, mark: nat, timeout: int)
    requires Consistent(m) && mark <= |m.arrivals|
    ensures var g := FirstGuard(x, m);
      && Consistent(g) && Onward(m, g) && OnlyHeard(m, g)
      && Running(Begun(x, m, timeout).(arrivals := Since(g, mark)), -1, Next(x, Next(x, m)).clock, g.clock)
  {
    var since := Next(x, Next(x, m));
    TwoSteps(x, m);
    TwoSteps(x, since);
    OnwardTwice(m, since, FirstGuard(x, m));
  }

  /** Every wait on every script ends, and is a valid one. */
  lemma ScanEnds(x: Setting, m: Moment, mark: nat, timeout: int)
    requires x.poll > 0 && Consistent(m) && mark <= |m.arrivals|
    ensures
      var (w, n) := Scan(x, m, mark, timeout);
      && Ended(m, mark, w, n)
      && w.quiet == x.quiet && w.poll == x.poll && m.clock <= w.start && w.deadline == w.start + Max(0, timeout)
  {
    var g, since, w := FirstGuard(x, m), Next(x, Next(x, m)).clock, Begun(x, m, timeout);
    BeginsWell(x, m, mark, timeout);
    LoopEnds(x, m, g, mark, w, -1, since);
    LoopKeepsTerms(x, g, mark, w, -1, since);
  }

  // ----- the poll around the wait -----

  /** What a poll comes to: the arrivals before its clear, its wait if it has one, and when it copies the list. */
  datatype Poll = Poll(mark: nat, w: Option<Wait>, copied: Moment)

  function PollFrom(x: Setting, m: Moment, scans: bool, timeout: int): (p: Poll)
    requires x.poll > 0
    ensures p.mark <= |p.copied.arrivals| && (p.w.Some? <==> scans)
  {
    var cleared := Next(x, m);
    var mark := |cleared.arrivals|;
    if scans then
      var (w, n) := Scan(x, Next(x, cleared), mark, timeout);
      LoopGrows(x, FirstGuard(x, Next(x, cleared)), mark, Begun(x, Next(x, cleared), timeout), -1,
                Next(x, Next(x, Next(x, cleared))).clock);
      Poll(mark, Some(w), Next(x, n))
    else Poll(mark, None, Next(x, cleared))
  }

  lemma {:induction false} LoopGrows(x: Setting, g: Moment, mark: nat, w: Wait, lastCount: int, stableSince: int)
    requires x.poll > 0 && mark <= |g.arrivals|
    ensures |g.arrivals| <= |Loop(x, g, mark, w, lastCount, stableSince).1.arrivals|
    decreases w.deadline - g.clock
  {
    if g.clock < w.deadline {
      var p, n := PassFrom(x, g, mark), Next(x, Next(x, g));
      if !Settles(p, lastCount, stableSince, x.quiet) {
        LoopGrows(x, NextGuard(x, n), mark, w.(passes := w.passes + [p]), p.count,
                  if p.count == lastCount then stableSince else p.nowAt);
      }
    }
  }

  /** Every poll on every script makes a valid wait and copies what came since its clear. */
  lemma PollEnds(x: Setting, m: Moment, scans: bool, timeout: int)
    requires x.poll > 0 && Consistent(m)
    ensures
      var p := PollFrom(x, m, scans, timeout);
      && Consistent(p.copied) && Onward(m, p.copied) && OnlyHeard(m, p.copied)
      && |m.arrivals| <= p.mark
      && (scans ==>
            && Valid(p.w.value) && p.w.value.quiet == x.quiet && p.w.value.poll == x.poll
            && m.clock <= p.w.value.start && p.w.value.deadline == p.w.value.start + Max(0, timeout)
            && p.w.value.end <= p.copied.clock
            && Grew(p.w.value.arrivals, Since(p.copied, p.mark), p.w.value.end))
  {
    var cleared := Next(x, m);
    TwoSteps(x, m);
    if scans {
      var q, mark := Next(x, cleared), |cleared.arrivals|;
      ScanEnds(x, q, mark, timeout);
      var (w, n) := Scan(x, q, mark, timeout);
      TwoSteps(x, n);
      OnwardTwice(m, q, n);
      OnwardTwice(m, n, Next(x, n));
      SinceGrows(n, Next(x, n), mark);
    }
  }

  /** Everything received since the clear by the time the reactor has gone on for `steps` batches. */
  function HeardOut(x: Setting, p: Poll, steps: nat): seq<Arrival> {
    var all := Batches(x.script, x.fed, p.copied, steps).arrivals;
    if p.mark <= |all| then all[p.mark..] else []
  }

  lemma ListeningOn(x: Setting, p: Poll, steps: nat)
    requires Consistent(p.copied) && p.mark <= |p.copied.arrivals|
    ensures Grew(Since(p.copied, p.mark), HeardOut(x, p, steps), p.copied.clock)
    ensures InOrder(HeardOut(x, p, steps))
  {
    BatchesMean(x.script, x.fed, p.copied, steps);
    var z := Batches(x.script, x.fed, p.copied, steps);
    SinceGrows(p.copied, z, p.mark);
    SinceInOrder(z, p.mark);
  }

  /**
  As long as gaps and skew are bounded, a poll returns everything that is ever
  delivered, however long the reactor goes on after it.
  */
  lemma PollIsComplete(x: Setting, m: Moment, timeout: int, steps: nat, gap: int, skew: int)
    requires x.poll > 0 && Consistent(m) && Bounded(x.quiet, x.poll, gap, skew)
    ensures Complete(x, m, timeout, steps, gap, skew)
  {
    var p := PollFrom(x, m, true, timeout);
    PollEnds(x, m, true, timeout);
    ListeningOn(x, p, steps);
    if Mild(p.w.value, HeardOut(x, p, steps), gap, skew) {
      NothingMissed(p.w.value, Since(p.copied, p.mark), HeardOut(x, p, steps), gap, skew);
    }
  }

  // ----- and only then -----

  /** If this run keeps to the limits, its poll returns everything received. */
  ghost predicate Complete(x: Setting, m: Moment, timeout: int, steps: nat, gap: int, skew: int)
    requires x.poll > 0
  {
    var p := PollFrom(x, m, true, timeout);
    Mild(p.w.value, HeardOut(x, p, steps), gap, skew) ==> Since(p.copied, p.mark) == HeardOut(x, p, steps)
  }

  /** So it is for every poll with these thresholds, on every script. */
  ghost predicate AlwaysComplete(quiet: int, poll: nat, gap: int, skew: int)
    requires poll > 0
  {
    forall x: Setting, m: Moment, timeout: int, steps: nat |
      x.quiet == quiet && x.poll == poll && Consistent(m) ::
      Complete(x, m, timeout, steps, gap, skew)
  }

  const SOMETHING := Measure("", Item(0, "", "", ""))
  const POINT := Harvested("", Item(0, "", "", ""))

  /** `n` measurements, one per tick. */
  function Stream(n: nat): seq<Tick> {
    seq(n, i => Tick(1, SOMETHING))
  }

  /**
  One point before the first length read and nothing until the sleep is over and the
  length has been read again; a stream of points while that pass is on its way to its
  clock read, and one more point once the poll has copied the list.
  */
  function LossyBatch(n: int, gap: nat, late: nat): seq<Tick> {
    if n == 5 || n == 12 then [Tick(0, SOMETHING)]
    else if n == 7 then [Tick(gap, Idle)]
    else if n == 10 then [Tick(0, SOMETHING)] + Stream(late)
    else []
  }

  ghost predicate Lossy(x: Setting, m: Moment, gap: nat, late: nat) {
    x.fed && forall n: nat {:trigger x.script(n)} | m.turn <= n :: x.script(n) == LossyBatch(n - m.turn, gap, late)
  }

  function Streamed(t: int, n: nat): seq<Arrival> {
    seq(n, i => Arrival(t + 1 + i, POINT))
  }

  lemma {:induction false} StreamRuns(m: Moment, late: nat)
    ensures
      Run(true, [Tick(0, SOMETHING)] + Stream(late), m) ==
      Moment(m.turn, m.clock + late, m.arrivals + [Arrival(m.clock, POINT)] + Streamed(m.clock, late), m.history)
  {
    var ticks := [Tick(0, SOMETHING)] + Stream(late);
    if late == 0 {
      assert ticks[..0] == [] && ticks == [Tick(0, SOMETHING)];
      assert Run(true, ticks, m) == Ticked(true, Tick(0, SOMETHING), m);
      assert m.arrivals + [Arrival(m.clock, POINT)] + Streamed(m.clock, 0) == m.arrivals + [Arrival(m.clock, POINT)];
    } else {
      assert ticks[..late] == [Tick(0, SOMETHING)] + Stream(late - 1);
      StreamRuns(m, late - 1);
      var before := m.arrivals + [Arrival(m.clock, POINT)];
      assert before + Streamed(m.clock, late)
          == (before + Streamed(m.clock, late - 1)) + [Arrival(m.clock + late, POINT)];
    }
  }

  lemma StreamBatch(x: Setting, m: Moment, late: nat)
    requires x.fed && x.script(m.turn) == [Tick(0, SOMETHING)] + Stream(late)
    ensures
      var all := m.arrivals + [Arrival(m.clock, POINT)] + Streamed(m.clock, late);
      Next(x, m) == Moment(m.turn + 1, m.clock + late, all, m.history)
  {
    StreamRuns(m.(turn := m.turn + 1), late);
  }

  lemma QuietBatch(x: Setting, m: Moment)
    requires x.script(m.turn) == []
    ensures Next(x, m) == m.(turn := m.turn + 1)
  {
  }

  lemma OneTick(x: Setting, m: Moment, t: Tick)
    requires x.script(m.turn) == [t]
    ensures Next(x, m) == Ticked(x.fed, t, m.(turn := m.turn + 1))
  {
    assert [t][..|[t]| - 1] == [];
    assert Run(x.fed, [], m.(turn := m.turn + 1)) == m.(turn := m.turn + 1);
  }

  /** What a lossy poll has received when its two passes are over. */
  function LossyArrivals(t: int, gap: nat, late: nat): (got: seq<Arrival>)
    ensures |got| == late + 2
  {
    [Arrival(t, POINT), Arrival(t + gap, POINT)] + Streamed(t + gap, late)
  }

  lemma LossyStart(x: Setting, m: Moment, gap: nat, late: nat)
    requires Lossy(x, m, gap, late)
    ensures Next(x, m) == m.(turn := m.turn + 1)
    ensures Next(x, Next(x, m)) == m.(turn := m.turn + 2)
    ensures FirstGuard(x, m.(turn := m.turn + 2)) == m.(turn := m.turn + 5)
    ensures Next(x, Next(x, m.(turn := m.turn + 2))).clock == m.clock
    ensures Next(x, m.(turn := m.turn + 2)).clock == m.clock
  {
    QuietBatch(x, m);
    QuietBatch(x, m.(turn := m.turn + 1));
    QuietBatch(x, m.(turn := m.turn + 2));
    QuietBatch(x, m.(turn := m.turn + 3));
    QuietBatch(x, m.(turn := m.turn + 4));
  }

  lemma LossyFirstPass(x: Setting, m: Moment, gap: nat, late: nat)
    requires Lossy(x, m, gap, late) && x.poll <= gap
    ensures
      var g, one := m.(turn := m.turn + 5), m.arrivals + [Arrival(m.clock, POINT)];
      && PassFrom(x, g, |m.arrivals|) == Pass(m.clock, m.clock, 1, m.clock)
      && NextGuard(x, Next(x, Next(x, g))) == Moment(m.turn + 9, m.clock + gap, one, m.history)
  {
    var g, one := m.(turn := m.turn + 5), m.arrivals + [Arrival(m.clock, POINT)];
    OneTick(x, g, Tick(0, SOMETHING));
    var c := m.(turn := m.turn + 6, arrivals := one);
    QuietBatch(x, c);
    var n := c.(turn := m.turn + 7);
    OneTick(x, n, Tick(gap, Idle));
    assert Asleep(x.script, x.fed, n, x.poll) == n.(turn := m.turn + 8, clock := m.clock + gap);
    QuietBatch(x, n.(turn := m.turn + 8, clock := m.clock + gap));
  }

  lemma LossyTurn(x: Setting, m: Moment, gap: nat, late: nat, k: nat)
    requires Lossy(x, m, gap, late)
    ensures x.fed && x.script(m.turn + k) == LossyBatch(k, gap, late)
    ensures LossyBatch(9, gap, late) == [] && LossyBatch(10, gap, late) == [Tick(0, SOMETHING)] + Stream(late)
  {
  }

  lemma LossySecondPass(x: Setting, m: Moment, gap: nat, late: nat)
    requires Lossy(x, m, gap, late)
    ensures
      var t := m.clock + gap;
      var g := Moment(m.turn + 9, t, m.arrivals + [Arrival(m.clock, POINT)], m.history);
      && PassFrom(x, g, |m.arrivals|) == Pass(t, t, 1, t + late)
      && Next(x, Next(x, g)) ==
           Moment(m.turn + 11, t + late, m.arrivals + LossyArrivals(m.clock, gap, late), m.history)
  {
    var t := m.clock + gap;
    var g := Moment(m.turn + 9, t, m.arrivals + [Arrival(m.clock, POINT)], m.history);
    hide Next, Streamed, Stream, LossyArrivals, Lossy, LossyBatch;
    LossyTurn(x, m, gap, late, 9);
    LossyTurn(x, m, gap, late, 10);
    QuietBatch(x, g);
    StreamBatch(x, g.(turn := m.turn + 10), late);
    AllArrivals(m.arrivals, m.clock, gap, late);
  }

  lemma AllArrivals(before: seq<Arrival>, t: int, gap: nat, late: nat)
    ensures before + [Arrival(t, POINT)] + [Arrival(t + gap, POINT)] + Streamed(t + gap, late)
         == before + LossyArrivals(t, gap, late)
  {
  }

  /** A wait of two passes, the second of which settles it. */
  lemma TwoPasses(x: Setting, f: Moment, g: Moment, n: Moment, mark: nat, w: Wait, since: int)
    requires x.poll > 0 && mark <= |f.arrivals| && f.clock < w.deadline && g.clock < w.deadline
    requires g == NextGuard(x, Next(x, Next(x, f))) && n == Next(x, Next(x, g))
    requires var p := PassFrom(x, f, mark);
      !Settles(p, -1, since, x.quiet) && Settles(PassFrom(x, g, mark), p.count, p.nowAt, x.quiet)
    ensures
      var p, q := PassFrom(x, f, mark), PassFrom(x, g, mark);
      Loop(x, f, mark, w, -1, since) ==
        (w.(arrivals := Since(n, mark), passes := w.passes + [p] + [q], ending := Settled, end := n.clock), n)
  {
    var p := PassFrom(x, f, mark);
    assert Loop(x, f, mark, w, -1, since) == Loop(x, g, mark, w.(passes := w.passes + [p]), p.count, p.nowAt);
  }

  lemma LossyLoop(x: Setting, m: Moment, gap: nat, late: nat, w: Wait)
    requires Lossy(x, m, gap, late) && 1 <= x.poll <= gap && 1 <= x.quiet <= gap + late
    requires m.clock + gap < w.deadline && w.passes == []
    ensures
      var t := m.clock;
      var (v, n) := Loop(x, m.(turn := m.turn + 5), |m.arrivals|, w, -1, t);
      && v.passes == [Pass(t, t, 1, t), Pass(t + gap, t + gap, 1, t + gap + late)]
      && v.deadline == w.deadline && v.arrivals == LossyArrivals(t, gap, late)
      && n == Moment(m.turn + 11, t + gap + late, m.arrivals + LossyArrivals(t, gap, late), m.history)
  {
    var t, got := m.clock, LossyArrivals(m.clock, gap, late);
    LossyFirstPass(x, m, gap, late);
    LossySecondPass(x, m, gap, late);
    var g := Moment(m.turn + 9, t + gap, m.arrivals + [Arrival(t, POINT)], m.history);
    TwoPasses(x, m.(turn := m.turn + 5), g, Next(x, Next(x, g)), |m.arrivals|, w, t);
    assert (m.arrivals + got)[|m.arrivals|..] == got;
  }

  /** The poll settles on one point; the others it copies, except the one that comes last. */
  lemma LossyPoll(x: Setting, m: Moment, gap: nat, late: nat, timeout: int)
    requires Lossy(x, m, gap, late) && 1 <= x.poll <= gap && 1 <= x.quiet <= gap + late < timeout
    ensures
      var p, t := PollFrom(x, m, true, timeout), m.clock;
      && p.mark == |m.arrivals|
      && p.w.value.passes == [Pass(t, t, 1, t), Pass(t + gap, t + gap, 1, t + gap + late)]
      && p.w.value.deadline == t + timeout
      && p.w.value.arrivals == LossyArrivals(t, gap, late)
      && p.copied == Moment(m.turn + 12, t + gap + late, m.arrivals + LossyArrivals(t, gap, late), m.history)
  {
    LossyStart(x, m, gap, late);
    LossyLoop(x, m, gap, late, Begun(x, m.(turn := m.turn + 2), timeout));
    QuietBatch(x, Moment(m.turn + 11, m.clock + gap + late, m.arrivals + LossyArrivals(m.clock, gap, late), m.history));
  }

  lemma LossyTail(x: Setting, m: Moment, gap: nat, late: nat, timeout: int)
    requires Lossy(x, m, gap, late) && 1 <= x.poll <= gap && 1 <= x.quiet <= gap + late < timeout
    ensures
      var p := PollFrom(x, m, true, timeout);
      && Since(p.copied, p.mark) == LossyArrivals(m.clock, gap, late)
      && HeardOut(x, p, 1) == LossyArrivals(m.clock, gap, late) + [Arrival(m.clock + gap + late, POINT)]
  {
    hide PollFrom, LossyArrivals;
    LossyPoll(x, m, gap, late, timeout);
    var p, got := PollFrom(x, m, true, timeout), LossyArrivals(m.clock, gap, late);
    OneTick(x, p.copied, Tick(0, SOMETHING));
    assert Batches(x.script, x.fed, p.copied, 0) == p.copied;
    assert (m.arrivals + got)[p.mark..] == got;
    assert (m.arrivals + got + [Arrival(p.copied.clock, POINT)])[p.mark..] == got + [Arrival(p.copied.clock, POINT)];
  }

  lemma LossyIsMild(w: Wait, t: int, gap: nat, late: nat, skew: int)
    requires 1 <= gap && late <= skew && t + gap + late < w.deadline
    requires w.passes == [Pass(t, t, 1, t), Pass(t + gap, t + gap, 1, t + gap + late)]
    requires w.arrivals == LossyArrivals(t, gap, late)
    ensures Mild(w, LossyArrivals(t, gap, late) + [Arrival(t + gap + late, POINT)], gap, skew)
  {
  }

  /** The poll keeps to these limits, and what it copies lacks the last point. */
  lemma LossyOutcome(x: Setting, m: Moment, gap: nat, late: nat, timeout: int)
    requires Lossy(x, m, gap, late) && 1 <= x.poll <= gap && 1 <= x.quiet <= gap + late < timeout
    requires Consistent(m)
    ensures
      var p := PollFrom(x, m, true, timeout);
      var all := HeardOut(x, p, 1);
      && p.w.Some? && Valid(p.w.value) && p.w.value.quiet == x.quiet && p.w.value.poll == x.poll
      && Mild(p.w.value, all, gap, late)
      && |all| == late + 3 && Since(p.copied, p.mark) == all[..late + 2]
  {
    hide Mild, PollFrom, Valid, Consistent, HeardOut, LossyArrivals, Batch;
    LossyPoll(x, m, gap, late, timeout);
    LossyTail(x, m, gap, late, timeout);
    LossyIsMild(PollFrom(x, m, true, timeout).w.value, m.clock, gap, late, late);
    PollEnds(x, m, true, timeout);
  }

  /** So it is not complete. */
  lemma LossyIsIncomplete(x: Setting, m: Moment, gap: nat, late: nat, skew: int, timeout: int)
    requires Lossy(x, m, gap, late) && 1 <= x.poll <= gap && 1 <= x.quiet <= gap + late < timeout
    requires late <= skew
    ensures !Complete(x, m, timeout, 1, gap, skew)
  {
    hide Mild, PollFrom, HeardOut, Batch;
    LossyPoll(x, m, gap, late, timeout);
    LossyTail(x, m, gap, late, timeout);
    LossyIsMild(PollFrom(x, m, true, timeout).w.value, m.clock, gap, late, skew);
  }

  lemma OneIsEnough(x: Setting, m: Moment, timeout: int, steps: nat, gap: int, skew: int)
    requires x.poll > 0 && Consistent(m) && !Complete(x, m, timeout, steps, gap, skew)
    ensures !AlwaysComplete(x.quiet, x.poll, gap, skew)
  {
  }

  lemma LimitsAreNeeded(quiet: int, poll: nat, gap: int, skew: int)
    requires 1 <= quiet && 1 <= poll && 0 <= skew && !Bounded(quiet, poll, gap, skew)
    ensures !AlwaysComplete(quiet, poll, gap, skew)
  {
    hide Complete, AlwaysComplete;
    var late := if quiet > gap then quiet - gap else 0;
    var x := Setting(n => LossyBatch(n, gap, late), true, quiet, poll);
    var m := Moment(0, 0, [], []);
    LossyIsIncomplete(x, m, gap, late, skew, gap + late + 1);
    OneIsEnough(x, m, gap + late + 1, 1, gap, skew);
  }

  /**
  The exact condition for polls to be complete: the largest gap has to stay below the
  quiet interval by more than the skew, or below the sleep between two passes. Beyond
  it some script makes a poll return a list that lacks a point.
  */
  lemma CompletenessBound(quiet: int, poll: nat, gap: int, skew: int)
    requires 1 <= quiet && 1 <= poll && 0 <= skew
    ensures AlwaysComplete(quiet, poll, gap, skew) <==> Bounded(quiet, poll, gap, skew)
  {
    if Bounded(quiet, poll, gap, skew) {
      forall x: Setting, m: Moment, timeout: int, steps: nat |
        x.quiet == quiet && x.poll == poll && Consistent(m)
        ensures Complete(x, m, timeout, steps, gap, skew)
      {
        PollIsComplete(x, m, timeout, steps, gap, skew);
      }
    } else {
      LimitsAreNeeded(quiet, poll, gap, skew);
    }
  }
}
