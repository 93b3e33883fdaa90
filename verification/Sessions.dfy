/**
The bounded wait, and the session context managers over every outcome of every step
they take: how building, starting, the body and the release end is chosen by a
`Scenario`.
*/
module Sessions {
  import opened Options

  /** A readiness probe; one that raises is as good as false. */
  datatype Probe = Holds | Fails | Raises

  /** The clock reads of the loop guard, with a sleep between any two. */
  ghost predicate Ticking(start: int, guard: nat -> int, poll: nat) {
    && (forall k: nat :: start <= guard(k))
    && (forall i: nat, j: nat :: i < j ==> guard(i) + poll <= guard(j))
  }

  /** Probe `n` holds, and it is reached: no guard before it found the deadline gone by. */
  ghost predicate ReadyAt(guard: nat -> int, probe: nat -> Probe, deadline: int, n: nat) {
    probe(n).Holds? && forall k: nat :: k < n ==> guard(k) < deadline
  }

  ghost predicate Ready(guard: nat -> int, probe: nat -> Probe, deadline: int) {
    exists n: nat :: ReadyAt(guard, probe, deadline, n)
  }

  /**
  Guard read `k` comes before probe `k`; the last probe of all comes after a guard
  that found the deadline gone by.
  */
  method WaitUntil(start: int, guard: nat -> int, probe: nat -> Probe, timeout: int, poll: nat)
    returns (ready: bool, probes: nat)
    requires poll > 0 && Ticking(start, guard, poll)
    ensures ready <==> Ready(guard, probe, start + Max(0, timeout))
    ensures probes > 0 && ready == probe(probes - 1).Holds?
    ensures forall k: nat :: k < probes - 1 ==> !probe(k).Holds?
    ensures !ready ==> guard(probes - 1) >= start + Max(0, timeout)
  {
    var deadline := start + Max(0, timeout);
    probes := 0;
    while guard(probes) < deadline
      invariant forall k: nat :: k < probes ==> !probe(k).Holds? && guard(k) < deadline
      decreases deadline - guard(probes)
    {
      if probe(probes).Holds? {
        assert ReadyAt(guard, probe, deadline, probes);
        return true, probes + 1;
      }
      probes := probes + 1;
    }
    ready := probe(probes).Holds?;
    assert ready ==> ReadyAt(guard, probe, deadline, probes);
    probes := probes + 1;
  }

  /** Some guard finds the deadline gone by, and none before it does. */
  lemma {:induction false} DeadlinePasses(start: int, guard: nat -> int, poll: nat, deadline: int, k: nat)
    returns (n: nat)
    requires poll > 0 && Ticking(start, guard, poll)
    requires forall i: nat :: i < k ==> guard(i) < deadline
    ensures guard(n) >= deadline && forall i: nat :: i < n ==> guard(i) < deadline
    decreases deadline - guard(k)
  {
    if guard(k) >= deadline {
      n := k;
    } else {
      n := DeadlinePasses(start, guard, poll, deadline, k + 1);
    }
  }

  /** A probe that becomes true by the deadline and stays true is never missed. */
  lemma StableReadinessIsSeen(start: int, guard: nat -> int, probe: nat -> Probe, deadline: int, poll: nat, since: int)
    requires poll > 0 && Ticking(start, guard, poll) && since <= deadline
    requires forall k: nat :: guard(k) >= since ==> probe(k).Holds?
    ensures Ready(guard, probe, deadline)
  {
    var n := DeadlinePasses(start, guard, poll, deadline, 0);
    assert ReadyAt(guard, probe, deadline, n);
  }

  /** How a step, or a whole session, ends. */
  datatype Outcome =
    | Done
    | RaisesTeaching   // OTConnectionError
    | RaisesOrdinary   // any other Exception
    | RaisesFatal      // KeyboardInterrupt, GeneratorExit, ...

  datatype Stage = Built | Started | Entered | Released

  datatype Scenario = Scenario(
    protocolMatches: bool,
    build: Outcome,
    start: Outcome,          // client.start(), adapter.enable(), adapter.connect()
    body: Outcome,
    release: Outcome)        // client.stop(), adapter.shutdown(), adapter.close()

  const WAIT_POLL := 50_000

  /** An ordinary exception becomes the teaching error; the teaching error and fatal ones pass. */
  function Translated(o: Outcome): Outcome {
    if o.RaisesOrdinary? then RaisesTeaching else o
  }

  /** The last word of a `finally` block that swallows ordinary exceptions of the release. */
  function Finally(o: Outcome, release: Outcome): Outcome {
    if release.RaisesFatal? then RaisesFatal else o
  }

  /**
  The client is released exactly once if it was built and never otherwise, as the
  last thing of all; the body runs at most once, after the client has started and
  only if it was seen ready.
  */
  ghost predicate Lifecycle(s: Scenario, log: seq<Stage>, ready: bool) {
    && (forall i, j | 0 <= i < j < |log| :: log[i] != log[j])
    && (Built in log <==> s.protocolMatches && s.build.Done?)
    && (Built in log <==> Released in log)
    && (Built in log ==> log[0] == Built && log[|log| - 1] == Released)
    && (Started in log <==> Built in log && s.start.Done?)
    && (Entered in log <==> Started in log && ready)
    && (Entered in log ==> log == [Built, Started, Entered, Released])
  }

  /** An error leaves as it was raised, except that ordinary ones leave as teaching ones. */
  ghost predicate Reports(s: Scenario, log: seq<Stage>, exit: Outcome, buildIsGuarded: bool) {
    && (exit.Done? ==> Entered in log && s.body.Done?)
    && (exit.RaisesOrdinary? ==> !buildIsGuarded && s.protocolMatches && s.build.RaisesOrdinary?)
    && (!s.protocolMatches ==> exit.RaisesTeaching?)
    && (Built in log && s.release.RaisesFatal? ==> exit.RaisesFatal?)
    && (Built in log && !s.release.RaisesFatal? ==>
          LeavesAs(if !s.start.Done? then s.start else if Entered in log then s.body else RaisesTeaching, exit))
    && (s.protocolMatches && !s.build.Done? ==>
          if buildIsGuarded then LeavesAs(s.build, exit) else exit == s.build)
  }

  /** Success and fatal exceptions pass, every other exception leaves as the teaching error. */
  ghost predicate LeavesAs(cause: Outcome, exit: Outcome) {
    && (exit.Done? <==> cause.Done?)
    && (exit.RaisesFatal? <==> cause.RaisesFatal?)
    && (exit.RaisesTeaching? <==> cause.RaisesTeaching? || cause.RaisesOrdinary?)
  }

  method Iec104Session(s: Scenario, begin: int, guard: nat -> int, probe: nat -> Probe, timeout: int)
    returns (exit: Outcome, log: seq<Stage>)
    requires Ticking(begin, guard, WAIT_POLL)
    ensures Lifecycle(s, log, Ready(guard, probe, begin + Max(0, timeout)))
    ensures Reports(s, log, exit, true)
  {
    log := [];
    if !s.protocolMatches {
      return RaisesTeaching, log;
    }
    // try
    exit := s.build;
    if exit.Done? {
      log := log + [Built];
      exit := s.start;
      if exit.Done? {
        log := log + [Started];
        var ready, _ := WaitUntil(begin, guard, probe, timeout, WAIT_POLL);
        if !ready {
          exit := RaisesTeaching;
        } else {
          log := log + [Entered];
          exit := s.body;
        }
      }
    }
    // except
    exit := Translated(exit);
    // finally
    if Built in log {
      log := log + [Released];
      exit := Finally(exit, s.release);
    }
  }

  /** No readiness wait, and the build comes before the `try`, so its errors leave untranslated. */
  method Iec61850Session(s: Scenario) returns (exit: Outcome, log: seq<Stage>)
    ensures Lifecycle(s, log, true)
    ensures Reports(s, log, exit, false)
  {
    log := [];
    if !s.protocolMatches {
      return RaisesTeaching, log;
    }
    exit := s.build;
    if !exit.Done? {
      return;
    }
    log := log + [Built];
    // try
    exit := s.start;
    if exit.Done? {
      log := log + [Started, Entered];
      exit := s.body;
    }
    // except
    exit := Translated(exit);
    // finally
    log := log + [Released];
    exit := Finally(exit, s.release);
  }
}
