/** How long a wait takes on a script whose batches take a bounded time. */
module SettleTiming {
  import opened Options
  import opened ReactorScript
  import opened Settle
  import opened SettleRun

  function Duration(ticks: seq<Tick>): nat {
    if ticks == [] then 0 else Duration(ticks[..|ticks| - 1]) + ticks[|ticks| - 1].after
  }

  lemma {:induction false} RunTakes(fed: bool, ticks: seq<Tick>, m: Moment)
    ensures Run(fed, ticks, m).clock == m.clock + Duration(ticks)
  {
    if ticks != [] {
      RunTakes(fed, ticks[..|ticks| - 1], m);
    }
  }

  /** No batch takes more than `d` ticks: that is how much anything but a sleep can hold the caller up. */
  ghost predicate Prompt(script: Script, d: nat) {
    forall n :: Duration(script(n)) <= d
  }

  lemma StepsTake(x: Setting, m: Moment, d: nat)
    requires Prompt(x.script, d)
    ensures m.clock <= Next(x, m).clock <= m.clock + d
    ensures m.clock + x.poll <= NextGuard(x, m).clock <= m.clock + x.poll + 2 * d
  {
    RunTakes(x.fed, x.script(m.turn), m.(turn := m.turn + 1));
    var s := Asleep(x.script, x.fed, m, x.poll);
    RunTakes(x.fed, x.script(s.turn), s.(turn := s.turn + 1));
  }

  /** The longest that one pass can take, its sleep included. */
  function Cycle(poll: nat, d: nat): nat {
    poll + 4 * d
  }

  /** The passes so far, and the guard read now, came one soon after the other. */
  ghost predicate PacedSoFar(w: Wait, guard: int, poll: nat, d: nat) {
    var n, c := |w.passes|, Cycle(poll, d);
    && (n == 0 ==> w.start <= guard <= w.start + 2 * d)
    && (n > 0 ==>
          && w.passes[0].guardAt <= w.start + c && w.passes[0].countAt <= w.start + c
          && guard <= w.passes[n - 1].nowAt + poll + 2 * d)
    && (forall k | 0 <= k < n ::
          w.passes[k].guardAt <= w.passes[k].countAt <= w.passes[k].guardAt + d
          && w.passes[k].countAt <= w.passes[k].nowAt <= w.passes[k].countAt + d)
    && (forall j, k | 0 <= j < k < n && k == j + 1 ::
          w.passes[k].countAt <= w.passes[j].countAt + c && w.passes[k].nowAt <= w.passes[j].nowAt + c)
  }

  lemma OnePassIsPaced(x: Setting, g: Moment, mark: nat, w: Wait, d: nat)
    requires Prompt(x.script, d) && mark <= |g.arrivals| && PacedSoFar(w, g.clock, x.poll, d)
    ensures
      var p, n := PassFrom(x, g, mark), Next(x, Next(x, g));
      && p.nowAt == n.clock <= g.clock + 2 * d
      && PacedSoFar(w.(passes := w.passes + [p]), NextGuard(x, n).clock, x.poll, d)
  {
    hide Next, NextGuard, Prompt, PacedSoFar;
    StepsTake(x, g, d);
    StepsTake(x, Next(x, g), d);
    StepsTake(x, Next(x, Next(x, g)), d);
    PacedAgain(w, g.clock, PassFrom(x, g, mark), NextGuard(x, Next(x, Next(x, g))).clock, x.poll, d);
  }

  lemma PacedAgain(w: Wait, guard: int, p: Pass, next: int, poll: nat, d: nat)
    requires PacedSoFar(w, guard, poll, d)
    requires guard == p.guardAt <= p.countAt <= guard + d && p.countAt <= p.nowAt <= p.countAt + d
    requires next <= p.nowAt + poll + 2 * d
    ensures PacedSoFar(w.(passes := w.passes + [p]), next, poll, d)
  {
  }

  /** Both endings keep the pace. */
  lemma PacedInTheEnd(w: Wait, guard: int, poll: nat, d: nat, arrivals: seq<Arrival>, end: int)
    requires PacedSoFar(w, guard, poll, d)
    ensures
      var v := w.(arrivals := arrivals, ending := TimedOut, end := guard);
      Paced(v, Cycle(poll, d)) && SkewAtMost(v, d)
    ensures
      var v := w.(arrivals := arrivals, ending := Settled, end := end);
      Paced(v, Cycle(poll, d)) && SkewAtMost(v, d)
  {
  }

  lemma {:induction false} LoopIsPaced(x: Setting, g: Moment, mark: nat, w: Wait,
                                       lastCount: int, stableSince: int, d: nat)
    requires Prompt(x.script, d) && x.poll > 0 && mark <= |g.arrivals| && PacedSoFar(w, g.clock, x.poll, d)
    ensures
      var v := Loop(x, g, mark, w, lastCount, stableSince).0;
      Paced(v, Cycle(x.poll, d)) && SkewAtMost(v, d)
    decreases w.deadline - g.clock
  {
    hide PacedSoFar, Paced, SkewAtMost, Next, NextGuard, PassFrom, Prompt;
    if g.clock >= w.deadline {
      PacedInTheEnd(w, g.clock, x.poll, d, Since(g, mark), g.clock);
    } else {
      var p, n := PassFrom(x, g, mark), Next(x, Next(x, g));
      OnePassIsPaced(x, g, mark, w, d);
      if Settles(p, lastCount, stableSince, x.quiet) {
        var v := w.(passes := w.passes + [p]);
        PacedInTheEnd(v, NextGuard(x, n).clock, x.poll, d, Since(n, mark), p.nowAt);
      } else {
        LoopIsPaced(x, NextGuard(x, n), mark, w.(passes := w.passes + [p]), p.count,
                    if p.count == lastCount then stableSince else p.nowAt, d);
      }
    }
  }

  /**
  Whatever the script does within these limits, the wait is over less than the quiet
  interval, two passes and one batch after the last arrival, and less than one pass after
  the deadline. Without arrivals it lasts at least to the deadline.
  */
  lemma ScanLatency(x: Setting, m: Moment, mark: nat, timeout: int, d: nat)
    requires Prompt(x.script, d) && Consistent(m) && mark <= |m.arrivals| && x.poll > 0 && x.quiet > 0
    ensures
      var (w, n) := Scan(x, m, mark, timeout);
      && (w.arrivals != [] ==> n.clock < LastArrival(w) + x.quiet + 2 * Cycle(x.poll, d) + d)
      && (w.arrivals == [] ==> w.ending == TimedOut && w.deadline <= n.clock)
      && n.clock < w.start + Max(0, timeout) + Cycle(x.poll, d)
  {
    var start, since := Next(x, m), Next(x, Next(x, m));
    var g := FirstGuard(x, m);
    StepsTake(x, start, d);
    StepsTake(x, since, d);
    ScanEnds(x, m, mark, timeout);
    LoopIsPaced(x, g, mark, Begun(x, m, timeout), -1, since.clock, d);
    var (w, n) := Scan(x, m, mark, timeout);
    SettleLatency(w, Cycle(x.poll, d), d);
  }

  /** When batches take no time at all, everything happens at multiples of the sleep. */
  ghost predicate ExactSoFar(w: Wait, guard: int) {
    && guard == w.start + |w.passes| * w.poll
    && (forall k | 0 <= k < |w.passes| ::
          w.passes[k].guardAt == w.passes[k].countAt == w.passes[k].nowAt == w.start + k * w.poll)
  }

  lemma OnePassIsExact(x: Setting, g: Moment, mark: nat, w: Wait)
    requires Prompt(x.script, 0) && mark <= |g.arrivals| && w.poll == x.poll && ExactSoFar(w, g.clock)
    ensures
      var p, n := PassFrom(x, g, mark), Next(x, Next(x, g));
      ExactSoFar(w.(passes := w.passes + [p]), NextGuard(x, n).clock)
  {
    StepsTake(x, g, 0);
    StepsTake(x, Next(x, g), 0);
    StepsTake(x, Next(x, Next(x, g)), 0);
    assert (|w.passes| + 1) * w.poll == |w.passes| * w.poll + w.poll;
  }

  lemma {:induction false} LoopIsExact(x: Setting, g: Moment, mark: nat, w: Wait, lastCount: int, stableSince: int)
    requires Prompt(x.script, 0) && x.poll > 0 && mark <= |g.arrivals| && w.poll == x.poll && ExactSoFar(w, g.clock)
    ensures Exact(Loop(x, g, mark, w, lastCount, stableSince).0)
    decreases w.deadline - g.clock
  {
    if g.clock < w.deadline {
      var p, n := PassFrom(x, g, mark), Next(x, Next(x, g));
      OnePassIsExact(x, g, mark, w);
      if !Settles(p, lastCount, stableSince, x.quiet) {
        LoopIsExact(x, NextGuard(x, n), mark, w.(passes := w.passes + [p]), p.count,
                    if p.count == lastCount then stableSince else p.nowAt);
      }
    }
  }

  /** So the wait keeps to the bounds for exact sleeps. */
  lemma ExactScanLatency(x: Setting, m: Moment, mark: nat, timeout: int)
    requires Prompt(x.script, 0) && Consistent(m) && mark <= |m.arrivals| && x.poll > 0 && x.quiet > 0
    ensures
      var (w, n) := Scan(x, m, mark, timeout);
      && Exact(w)
      && (w.arrivals != [] ==> n.clock < LastArrival(w) + x.quiet + 2 * x.poll)
      && (w.arrivals == [] ==> w.ending == TimedOut && w.deadline <= n.clock)
      && n.clock < w.deadline + x.poll
  {
    var start, since := Next(x, m), Next(x, Next(x, m));
    StepsTake(x, start, 0);
    StepsTake(x, since, 0);
    ScanEnds(x, m, mark, timeout);
    LoopIsExact(x, FirstGuard(x, m), mark, Begun(x, m, timeout), -1, since.clock);
    var (w, n) := Scan(x, m, mark, timeout);
    ExactLatency(w);
  }
}
