/**
The DNP3 master adapter: the point list it shares with the handler the reactor
thread feeds, the integrity poll that clears and reads that list, and the channel
state its callbacks record. Before each step of the caller the next batch of the
reactor's script runs.
*/
module Dnp3Driver {
  import opened Options
  import opened Measurements
  import opened ChannelHistory
  import opened ReactorScript
  import opened SettleRun
  import Settle

  // The wait's own defaults, in microseconds.
  const QUIET := 200_000
  const POLL := 50_000

  /** A Python list, shared by reference. */
  class PointList {
    var items: seq<Point>

    constructor ()
      ensures items == []
    {
      items := [];
    }

    method Append(p: Point)
      modifies this
      ensures items == old(items) + [p]
    {
      items := items + [p];
    }

    method Clear()
      modifies this
      ensures items == []
    {
      items := [];
    }
  }

  /** Owner of the list the poll reads back. */
  class Collector {
    var points: PointList

    constructor ()
      ensures fresh(points) && points.items == []
    {
      points := new PointList();
    }
  }

  /** The handler given to the stack; it captured a list when it was made. */
  class SoeHandler {
    const points: PointList

    constructor (points: PointList)
      ensures this.points == points
    {
      this.points := points;
    }

    /** One item visited by the stack while it processes a collection. */
    method OnItem(collection: string, item: Item)
      modifies points
      ensures points.items == old(points.items) + [Harvested(collection, item)]
    {
      points.Append(Harvested(collection, item));
    }
  }

  /** What `AddMaster` is given: without the base class, the collector, which processes nothing. */
  datatype Soe = NoSoe | Plain(collector: Collector) | Feeding(handler: SoeHandler)

  class Reactor {
    const script: Script
    var turn: nat
    var clock: int
    ghost var arrivals: seq<Settle.Arrival>  // every point ever appended, with its time
    var scans: nat                           // ScanClasses calls so far
    ghost var scanMark: nat                  // arrivals before the latest of them

    constructor (script: Script, clock: int)
      ensures this.script == script && this.clock == clock && turn == 0 && arrivals == [] && scans == 0
      ensures Consistent()
    {
      this.script := script;
      this.turn := 0;
      this.clock := clock;
      this.arrivals := [];
      this.scans := 0;
      this.scanMark := 0;
    }

    /** Ask for a Class 0/1/2/3 read; the answer comes later, through callbacks. */
    method ScanClasses()
      modifies this`scans, this`scanMark
      ensures scans == old(scans) + 1 && scanMark == |arrivals|
    {
      scans := scans + 1;
      scanMark := |arrivals|;
    }

    ghost predicate Consistent()
      reads this
    {
      ReactorScript.Consistent(Moment(turn, clock, arrivals, []))
    }
  }

  /** The capabilities of the installed binding. */
  datatype Binding = Binding(hasSoeHandler: bool, hasScanClasses: bool)

  /** The foreign calls `enable` makes, in order; any of them may raise. */
  datatype Wiring = LogHandler | NewManager | Listener | AddTcpClient | StackConfig
                  | MakeSoe | MakeApplication | AddMaster | EnableMaster | NoFailure

  /** Whether this `enable` gets as far as making the SOE handler. */
  predicate MakesHandler(raises: Wiring) {
    raises in {MakeApplication, AddMaster, EnableMaster, NoFailure}
  }

  /** Caller steps in an `enable` that succeeds. */
  const ENABLE_STEPS := 9

  /** Where a shutdown may raise: when it starts its worker, or while it waits for it. */
  datatype Trouble = WorkerStart | Join | NoTrouble

  class Adapter {
    const binding: Binding
    const handler: Collector
    var soe: Soe
    var manager: Option<nat>     // number of the live DNP3Manager
    var master: bool             // whether AddMaster has succeeded
    var enabled: bool
    var channelState: Option<ChannelState>
    var linkStatus: Option<bool>
    var lastIin: bool

    ghost var history: seq<Note>
    var managers: nat            // managers made so far; names the next one
    ghost var stopped: seq<nat>      // managers told to shut down, in order
    ghost var mark: nat              // arrivals before the list was made or last cleared

    constructor (binding: Binding, ghost r: Reactor)
      requires r.Consistent()
      ensures Valid(r) && this.binding == binding
      ensures fresh(handler) && fresh(handler.points)
      ensures history == [] && managers == 0 && stopped == [] && mark == |r.arrivals|
      ensures soe == NoSoe && manager == None && !master
    {
      this.binding := binding;
      handler := new Collector();
      soe, manager, master, enabled := NoSoe, None, false, false;
      channelState, linkStatus, lastIin := None, None, false;
      history, managers, stopped, mark := [], 0, [], |r.arrivals|;
    }

    /** Where the run stands. */
    ghost function Now(r: Reactor): Moment
      reads this`history, r`turn, r`clock, r`arrivals
    {
      Moment(r.turn, r.clock, r.arrivals, history)
    }

    /** Points appended since the list was made or last cleared, in delivery order. */
    ghost function Received(r: Reactor): seq<Settle.Arrival>
      requires mark <= |r.arrivals|
      reads this`mark, this`history, r`turn, r`clock, r`arrivals
    {
      Since(Now(r), mark)
    }

    /** Every manager is shut down at most once, and never the live one. */
    ghost predicate ManagersReleasedOnce()
      reads this`manager, this`managers, this`stopped
    {
      && (forall i, j | 0 <= i < j < |stopped| :: stopped[i] != stopped[j])
      && (forall i | 0 <= i < |stopped| :: stopped[i] < managers)
      && (manager.Some? ==> manager.value < managers && manager.value !in stopped)
    }

    /** The handler appends to the very list that the poll clears and reads. */
    ghost predicate OneList()
      reads this`soe, handler
    {
      match soe
      case NoSoe => true
      case Plain(c) => c == handler
      case Feeding(h) => h.points == handler.points
    }

    /** The recorded states are those that the history leads to. */
    ghost predicate RecordedStates()
      reads this`channelState, this`linkStatus, this`lastIin, this`history
    {
      channelState == Latest(history) && linkStatus == LatestLink(history) && lastIin == SeenIin(history)
    }

    ghost predicate Valid(r: Reactor): (v: bool)
      reads this`soe, this`mark, this`manager, this`managers, this`stopped
      reads this`channelState, this`linkStatus, this`lastIin, this`history
      reads handler, handler.points, r`turn, r`clock, r`arrivals
      ensures v ==> Consistent(Now(r)) && mark <= |r.arrivals|
      ensures v ==> handler.points.items == Settle.Points(Received(r))
    {
      && Consistent(Now(r))
      && OneList()
      && mark <= |r.arrivals|
      && handler.points.items == Settle.Points(Received(r))
      && RecordedStates()
      && ManagersReleasedOnce()
    }

    /** Whether measurements reach a handler that records them. */
    predicate Fed()
      reads this`master, this`soe
    {
      master && soe.Feeding?
    }

    // ----- callbacks -----

    method RecordChannelState(ghost at: int, state: ChannelState)
      modifies this`channelState, this`history
      ensures channelState == Some(state) && history == old(history) + [Note(at, Changed(state))]
    {
      channelState := Some(state);
      history := history + [Note(at, Changed(state))];
    }

    method RecordLinkStatus(ghost at: int, success: bool)
      modifies this`linkStatus, this`history
      ensures linkStatus == Some(success) && history == old(history) + [Note(at, KeepAlive(success))]
    {
      linkStatus := Some(success);
      history := history + [Note(at, KeepAlive(success))];
    }

    method RecordIin(ghost at: int)
      modifies this`lastIin, this`history
      ensures lastIin && history == old(history) + [Note(at, Iin)]
    {
      lastIin := true;
      history := history + [Note(at, Iin)];
    }

    /** A measurement reaches the handler. */
    method Receive(r: Reactor, collection: string, item: Item)
      requires Valid(r) && Fed()
      modifies r`arrivals, handler.points
      ensures r.arrivals == old(r.arrivals) + [Settle.Arrival(r.clock, Harvested(collection, item))]
      ensures handler.points.items == Settle.Points(Received(r))
    {
      soe.handler.OnItem(collection, item);
      ghost var a := Settle.Arrival(r.clock, Harvested(collection, item));
      r.arrivals := r.arrivals + [a];
      assert Received(r) == old(Received(r)) + [a];
    }

    /** One act of the reactor thread. */
    method Perform(r: Reactor, act: Act)
      requires Valid(r)
      modifies r`arrivals, this`channelState, this`linkStatus, this`lastIin, this`history, handler.points
      ensures Valid(r)
      ensures Now(r) == Ticked(Fed(), Tick(0, act), old(Now(r)))
    {
      hide Ticked, ReactorScript.Consistent, Latest, LatestLink, SeenIin, Harvested;
      TickedMeans(Fed(), Tick(0, act), Now(r));
      forall n: Note {
        StateAfter(history, n);
      }
      ActAdds(Fed(), act, Now(r));
      match act {
        case Measure(collection, item) =>
          if master && soe.Feeding? {
            Receive(r, collection, item);
          }
        case StateChange(state) => RecordChannelState(r.clock, state);
        case LinkResult(success) => RecordLinkStatus(r.clock, success);
        case IinBits => RecordIin(r.clock);
        case Idle =>
      }
    }

    /** One tick: its delay, then its act. */
    method PerformTick(r: Reactor, t: Tick)
      requires Valid(r)
      modifies r`clock, r`arrivals
      modifies this`channelState, this`linkStatus, this`lastIin, this`history, handler.points
      ensures Valid(r)
      ensures Now(r) == Ticked(Fed(), t, old(Now(r)))
    {
      hide Ticked, Latest, Harvested;
      DelayThenAct(Fed(), t, Now(r));
      r.clock := r.clock + t.after;
      Perform(r, t.act);
    }

    /** The reactor thread performs the next batch of its script, no more and no less. */
    method PerformBatch(r: Reactor)
      requires Valid(r)
      modifies r`clock, r`turn, r`arrivals
      modifies this`channelState, this`linkStatus, this`lastIin, this`history, handler.points
      ensures Valid(r)
      ensures Now(r) == Batch(r.script, Fed(), old(Now(r)))
    {
      hide Ticked, Latest, Harvested;
      var ticks := r.script(r.turn);
      r.turn := r.turn + 1;
      ghost var m := Now(r);
      for i := 0 to |ticks|
        invariant Valid(r) && Now(r) == Run(Fed(), ticks[..i], m)
      {
        assert ticks[..i + 1][..i] == ticks[..i];
        PerformTick(r, ticks[i]);
      }
      assert ticks[..|ticks|] == ticks;
    }

    /** What happens before the caller's next atomic step. */
    method Interleave(r: Reactor)
      requires Valid(r)
      modifies r`clock, r`turn, r`arrivals
      modifies this`channelState, this`linkStatus, this`lastIin, this`history, handler.points
      ensures Valid(r)
      ensures Now(r) == Batch(r.script, Fed(), old(Now(r)))
      ensures Onward(old(Now(r)), Now(r)) && OnlyHeard(old(Now(r)), Now(r))
    {
      BatchMeans(r.script, Fed(), Now(r));
      PerformBatch(r);
    }

    /** `time.sleep`: the reactor keeps running and at least `d` ticks go by. */
    method Sleep(r: Reactor, d: nat)
      requires Valid(r)
      modifies r`clock, r`turn, r`arrivals
      modifies this`channelState, this`linkStatus, this`lastIin, this`history, handler.points
      ensures Valid(r)
      ensures Now(r) == Asleep(r.script, Fed(), old(Now(r)), d)
    {
      hide Batch, Onward, OnlyHeard, ReactorScript.Consistent, RecordedStates, OneList, ManagersReleasedOnce;
      AsleepMeans(r.script, Fed(), Now(r), d);
      var wake := r.clock + d;
      Interleave(r);
      if r.clock < wake {
        r.clock := wake;
      }
    }

    // ----- the caller -----

    /** `time.monotonic()` */
    method ReadClock(r: Reactor) returns (now: int)
      requires Valid(r)
      modifies r`clock, r`turn, r`arrivals
      modifies this`channelState, this`linkStatus, this`lastIin, this`history, handler.points
      ensures Valid(r)
      ensures Now(r) == Batch(r.script, Fed(), old(Now(r))) && now == r.clock
      ensures Onward(old(Now(r)), Now(r)) && OnlyHeard(old(Now(r)), Now(r))
    {
      Interleave(r);
      now := r.clock;
    }

    /** `len(self._handler.points)` */
    method ReadCount(r: Reactor) returns (count: nat)
      requires Valid(r)
      modifies r`clock, r`turn, r`arrivals
      modifies this`channelState, this`linkStatus, this`lastIin, this`history, handler.points
      ensures Valid(r)
      ensures Now(r) == Batch(r.script, Fed(), old(Now(r))) && count == |Received(r)|
    {
      Interleave(r);
      count := |handler.points.items|;
    }

    /** The end of a pass and the guard of the next one. */
    method SleepThenReadClock(r: Reactor, d: nat) returns (now: int)
      requires Valid(r)
      modifies r`clock, r`turn, r`arrivals
      modifies this`channelState, this`linkStatus, this`lastIin, this`history, handler.points
      ensures Valid(r)
      ensures Now(r) == Batch(r.script, Fed(), Asleep(r.script, Fed(), old(Now(r)), d))
      ensures Onward(old(Now(r)), Now(r)) && OnlyHeard(old(Now(r)), Now(r))
      ensures old(r.clock) + d <= now == r.clock
    {
      hide Valid, Batch, Asleep, Onward, OnlyHeard, ReactorScript.Consistent;
      AsleepMeans(r.script, Fed(), Now(r), d);
      Sleep(r, d);
      ghost var slept := Now(r);
      now := ReadClock(r);
      OnwardTwice(old(Now(r)), slept, Now(r));
    }

    /** One pass of the wait: the length of the list, then the clock. */
    method Sample(r: Reactor, ghost x: Setting) returns (current: nat, now: int)
      requires Valid(r) && x.script == r.script && x.fed == Fed()
      modifies r`clock, r`turn, r`arrivals
      modifies this`channelState, this`linkStatus, this`lastIin, this`history, handler.points
      ensures Valid(r)
      ensures Now(r) == Next(x, Next(x, old(Now(r)))) && now == r.clock
      ensures
        var p := PassFrom(x, old(Now(r)), mark);
        current == p.count && now == p.nowAt
    {
      current := ReadCount(r);
      now := ReadClock(r);
    }

    /** The clock reads of a wait up to its first guard. */
    method ReadClocks(r: Reactor, ghost x: Setting) returns (start: int, stableSince: int, guard: int)
      requires Valid(r) && x.script == r.script && x.fed == Fed()
      modifies r`clock, r`turn, r`arrivals
      modifies this`channelState, this`linkStatus, this`lastIin, this`history, handler.points
      ensures Valid(r)
      ensures Now(r) == FirstGuard(x, old(Now(r))) && guard == r.clock
      ensures start == Next(x, old(Now(r))).clock && stableSince == Next(x, Next(x, old(Now(r)))).clock
    {
      hide Valid, Batch, Onward, OnlyHeard, ReactorScript.Consistent;
      start := ReadClock(r);
      stableSince := ReadClock(r);
      guard := ReadClock(r);
    }

    method SleepThenGuard(r: Reactor, poll: nat, ghost x: Setting) returns (guard: int)
      requires Valid(r) && x.script == r.script && x.fed == Fed() && x.poll == poll
      modifies r`clock, r`turn, r`arrivals
      modifies this`channelState, this`linkStatus, this`lastIin, this`history, handler.points
      ensures Valid(r)
      ensures Now(r) == NextGuard(x, old(Now(r))) && guard == r.clock
    {
      hide Valid, Batch, Onward, OnlyHeard, ReactorScript.Consistent;
      guard := SleepThenReadClock(r, poll);
    }

    /** Wait for the points to stop growing: the wait of this script, and nothing else. */
    method SettleScan(r: Reactor, timeout: int, quiet: int, poll: nat) returns (ghost w: Settle.Wait)
      requires Valid(r) && poll > 0
      modifies r`clock, r`turn, r`arrivals
      modifies this`channelState, this`linkStatus, this`lastIin, this`history, handler.points
      ensures Valid(r)
      ensures (w, Now(r)) == Scan(Setting(r.script, Fed(), quiet, poll), old(Now(r)), mark, timeout)
    {
      hide Valid, Batch, PassFrom, Loop, Next, NextGuard, FirstGuard, Onward, OnlyHeard, ReactorScript.Consistent;
      ghost var x, m := Setting(r.script, Fed(), quiet, poll), Now(r);
      var start, stableSince, guard := ReadClocks(r, x);
      var deadline := start + Max(0, timeout);
      var lastCount: int := -1;
      w := Begun(x, m, timeout);
      while guard < deadline
        invariant Valid(r) && guard == r.clock && deadline == w.deadline
        invariant Loop(x, Now(r), mark, w, lastCount, stableSince) == Scan(x, m, mark, timeout)
        decreases deadline - guard
      {
        ghost var p := PassFrom(x, Now(r), mark);
        LoopSteps(x, Now(r), mark, w, lastCount, stableSince);
        var current, now := Sample(r, x);
        if current != lastCount {
          lastCount := current;
          stableSince := now;
        } else if current > 0 && now - stableSince >= quiet {
          w := w.(passes := w.passes + [p], arrivals := Received(r), ending := Settle.Settled, end := now);
          return;
        }
        guard := SleepThenGuard(r, poll, x);
        w := w.(passes := w.passes + [p]);
      }
      LoopSteps(x, Now(r), mark, w, lastCount, stableSince);
      w := w.(arrivals := Received(r), ending := Settle.TimedOut, end := guard);
    }

    /** `self._handler.points.clear()` */
    method ClearPoints(r: Reactor)
      requires Valid(r)
      modifies r`clock, r`turn, r`arrivals, handler.points
      modifies this`mark, this`channelState, this`linkStatus, this`lastIin, this`history
      ensures Valid(r)
      ensures Now(r) == Batch(r.script, Fed(), old(Now(r))) && mark == |r.arrivals|
    {
      Interleave(r);
      handler.points.Clear();
      mark := |r.arrivals|;
    }

    /** Issue the scan, then wait for its answer to be complete. */
    method ScanAndSettle(r: Reactor, settle: int) returns (ghost w: Settle.Wait)
      requires Valid(r)
      modifies r, this`channelState, this`linkStatus, this`lastIin, this`history, handler.points
      ensures Valid(r)
      ensures
        var x := Setting(r.script, Fed(), QUIET, POLL);
        (w, Now(r)) == Scan(x, Next(x, old(Now(r))), mark, settle)
      ensures r.scans == old(r.scans) + 1 && mark <= r.scanMark
    {
      hide Valid, Batch, Scan, Onward, OnlyHeard, ReactorScript.Consistent;
      Interleave(r);
      r.ScanClasses();
      w := SettleScan(r, settle, QUIET, POLL);
    }

    /** The scan and its wait, if the binding can scan at all and the call does not raise. */
    method TryScan(r: Reactor, settle: int, scanRaises: bool) returns (ok: bool, ghost w: Option<Settle.Wait>)
      requires Valid(r)
      modifies r, this`channelState, this`linkStatus, this`lastIin, this`history, handler.points
      ensures Valid(r)
      ensures ok <==> !(binding.hasScanClasses && scanRaises)
      ensures !binding.hasScanClasses ==> w == None && Now(r) == old(Now(r)) && r.scans == old(r.scans)
      ensures !ok ==> Now(r) == Batch(r.script, Fed(), old(Now(r))) && r.scans == old(r.scans)
      ensures binding.hasScanClasses && ok ==>
        && var x := Setting(r.script, Fed(), QUIET, POLL);
        && w.Some? && (w.value, Now(r)) == Scan(x, Next(x, old(Now(r))), mark, settle)
        && r.scans == old(r.scans) + 1 && mark <= r.scanMark
    {
      hide Valid, Batch, Scan, Onward, OnlyHeard, ReactorScript.Consistent;
      ok, w := true, None;
      if binding.hasScanClasses {
        if scanRaises {
          Interleave(r);
          return false, None;
        }
        ghost var wait := ScanAndSettle(r, settle);
        w := Some(wait);
      }
    }

    /**
    The points received since this poll cleared the shared list, in delivery order.
    The result is a copy, so nothing that arrives later can change it. If issuing the
    scan raises, so does the poll, and the list has been cleared.
    */
    method IntegrityPoll(r: Reactor, settle: int, scanRaises: bool)
      returns (ok: bool, result: seq<Point>, ghost p: Poll)
      requires Valid(r)
      modifies r, handler.points
      modifies this`mark, this`channelState, this`linkStatus, this`lastIin, this`history
      ensures Valid(r)
      ensures ok <==> !(master && binding.hasScanClasses && scanRaises)
      ensures !master ==> result == [] && Now(r) == old(Now(r)) && r.scans == old(r.scans) && mark == old(mark)
      ensures master && ok ==>
        && p == PollFrom(Setting(r.script, Fed(), QUIET, POLL), old(Now(r)), binding.hasScanClasses, settle)
        && Now(r) == p.copied && mark == p.mark && result == Settle.Points(Received(r))
        && r.scans == old(r.scans) + (if binding.hasScanClasses then 1 else 0)
        && (binding.hasScanClasses ==> mark <= r.scanMark)
      ensures !ok ==>
        && Now(r) == Batches(r.script, Fed(), old(Now(r)), 2) && r.scans == old(r.scans)
        && mark == |Batch(r.script, Fed(), old(Now(r))).arrivals|
    {
      hide Valid, Batch, Scan, Onward, OnlyHeard, ReactorScript.Consistent;
      ok, result, p := true, [], Poll(0, None, Now(r));
      if !master {
        return;
      }
      ClearPoints(r);
      ghost var w;
      ok, w := TryScan(r, settle, scanRaises);
      if !ok {
        TwoBatches(r.script, Fed(), old(Now(r)));
        return;
      }
      Interleave(r);
      p := Poll(mark, w, Now(r));
      result := handler.points.items;
    }

    /** Any number of further reactor steps. */
    method Listen(r: Reactor, steps: nat)
      requires Valid(r)
      modifies r`clock, r`turn, r`arrivals
      modifies this`channelState, this`linkStatus, this`lastIin, this`history, handler.points
      ensures Valid(r)
      ensures Now(r) == Batches(r.script, Fed(), old(Now(r)), steps)
    {
      hide Valid, Batch, ReactorScript.Consistent;
      for i := 0 to steps
        invariant Valid(r) && Now(r) == Batches(r.script, Fed(), old(Now(r)), i)
      {
        Interleave(r);
      }
    }

    /**
    A poll, and then any number of further reactor steps. As long as no gap between
    two points is too long and all of them arrive before the deadline, the poll has
    returned everything that was ever delivered since its clear.
    */
    method PollThenListen(r: Reactor, settle: int, steps: nat, ghost gap: int, ghost skew: int)
      returns (result: seq<Point>, ghost p: Poll)
      requires Valid(r) && master && binding.hasScanClasses
      modifies r, handler.points
      modifies this`mark, this`channelState, this`linkStatus, this`lastIin, this`history
      ensures Valid(r)
      ensures
        var x := Setting(r.script, Fed(), QUIET, POLL);
        && p == PollFrom(x, old(Now(r)), true, settle) && Received(r) == HeardOut(x, p, steps)
        && result == Settle.Points(Since(p.copied, p.mark))
      ensures Settle.Valid(p.w.value) && p.w.value.deadline == p.w.value.start + Max(0, settle)
      ensures Settle.Mild(p.w.value, Received(r), gap, skew) && Settle.Bounded(QUIET, POLL, gap, skew)
        ==> result == Settle.Points(Received(r))
    {
      hide Valid, Batch, Scan, PollFrom, ReactorScript.Consistent;
      ghost var x := Setting(r.script, Fed(), QUIET, POLL);
      PollEnds(x, Now(r), true, settle);
      if Settle.Bounded(QUIET, POLL, gap, skew) {
        PollIsComplete(x, Now(r), settle, steps, gap, skew);
      }
      var ok;
      ok, result, p := IntegrityPoll(r, settle, false);
      Listen(r, steps);
    }

    // ----- lifecycle -----

    /** The run went on from `m`, with nothing but the reactor's own reports since. */
    ghost predicate Meanwhile(r: Reactor, m: Moment)
      reads this`history, r`turn, r`clock, r`arrivals
    {
      Onward(m, Now(r)) && OnlyHeard(m, Now(r))
    }

    /** One more step of the caller. */
    method Proceed(r: Reactor, ghost m: Moment)
      requires Valid(r) && Meanwhile(r, m)
      modifies r`clock, r`turn, r`arrivals
      modifies this`channelState, this`linkStatus, this`lastIin, this`history, handler.points
      ensures Valid(r) && Meanwhile(r, m)
      ensures r.turn == old(r.turn) + 1
    {
      Interleave(r);
      OnwardTwice(m, old(Now(r)), Now(r));
    }

    /** The new manager takes the next number. */
    method MakeManager(ghost r: Reactor)
      requires Valid(r)
      modifies this`manager, this`managers
      ensures Valid(r) && manager == Some(old(managers)) && managers == old(managers) + 1
    {
      manager := Some(managers);
      managers := managers + 1;
    }

    /** Log handler, manager, listener and channel, up to the foreign call that raises. */
    method OpenChannel(r: Reactor, raises: Wiring) returns (ok: bool)
      requires Valid(r)
      modifies r`clock, r`turn, r`arrivals, this`manager, this`managers
      modifies this`channelState, this`linkStatus, this`lastIin, this`history, handler.points
      ensures Valid(r) && Meanwhile(r, old(Now(r)))
      ensures ok == (raises !in {LogHandler, NewManager, Listener, AddTcpClient})
      ensures ok ==> r.turn == old(r.turn) + 4
      ensures (manager, managers) ==
        if raises in {LogHandler, NewManager} then (old(manager), old(managers))
        else (Some(old(managers)), old(managers) + 1)
    {
      hide Valid, Batch, Onward, OnlyHeard, ReactorScript.Consistent;
      ok := false;
      Interleave(r);
      if raises.LogHandler? { return; }
      Proceed(r, old(Now(r)));
      if raises.NewManager? { return; }
      MakeManager(r);
      Proceed(r, old(Now(r)));
      if raises.Listener? { return; }
      Proceed(r, old(Now(r)));
      ok := !raises.AddTcpClient?;
    }

    method TakeSoe(ghost r: Reactor)
      requires Valid(r)
      modifies this`soe
      ensures Valid(r) && (soe.Feeding? <==> binding.hasSoeHandler) && soe != NoSoe
    {
      soe := MakeSoe();
    }

    /** Stack configuration, handler and application, up to the foreign call that raises. */
    method Prepare(r: Reactor, raises: Wiring) returns (ok: bool)
      requires Valid(r)
      modifies r`clock, r`turn, r`arrivals, this`soe
      modifies this`channelState, this`linkStatus, this`lastIin, this`history, handler.points
      ensures Valid(r) && Meanwhile(r, old(Now(r)))
      ensures ok == (raises !in {StackConfig, Wiring.MakeSoe, MakeApplication})
      ensures ok ==> r.turn == old(r.turn) + 3
      ensures
        if raises in {StackConfig, Wiring.MakeSoe} then soe == old(soe)
        else (soe.Feeding? <==> binding.hasSoeHandler) && soe != NoSoe
    {
      hide Valid, Batch, Onward, OnlyHeard, ReactorScript.Consistent;
      ok := false;
      Interleave(r);
      if raises.StackConfig? { return; }
      Proceed(r, old(Now(r)));
      if raises.MakeSoe? { return; }
      TakeSoe(r);
      Proceed(r, old(Now(r)));
      ok := !raises.MakeApplication?;
    }

    /** The master, added and enabled, up to the foreign call that raises. */
    method StartMaster(r: Reactor, raises: Wiring) returns (ok: bool)
      requires Valid(r)
      modifies r`clock, r`turn, r`arrivals, this`master, this`enabled
      modifies this`channelState, this`linkStatus, this`lastIin, this`history, handler.points
      ensures Valid(r) && Meanwhile(r, old(Now(r)))
      ensures ok == (raises !in {AddMaster, EnableMaster}) && (ok ==> r.turn == old(r.turn) + 2)
      ensures enabled == (old(enabled) || ok) && master == (old(master) || !raises.AddMaster?)
    {
      hide Valid, Batch, Onward, OnlyHeard, ReactorScript.Consistent;
      ok := false;
      Interleave(r);
      if raises.AddMaster? { return; }
      master := true;
      Proceed(r, old(Now(r)));
      if raises.EnableMaster? { return; }
      enabled := true;
      ok := true;
    }

    /** Everything that comes after the channel. */
    method ConnectMaster(r: Reactor, raises: Wiring) returns (ok: bool)
      requires Valid(r) && raises !in {LogHandler, NewManager, Listener, AddTcpClient}
      modifies r`clock, r`turn, r`arrivals, this`soe, this`master, this`enabled
      modifies this`channelState, this`linkStatus, this`lastIin, this`history, handler.points
      ensures Valid(r) && Meanwhile(r, old(Now(r)))
      ensures ok == raises.NoFailure? && (ok ==> r.turn == old(r.turn) + 5)
      ensures enabled == (old(enabled) || ok) && master == (old(master) || raises.EnableMaster? || ok)
      ensures
        if MakesHandler(raises) then (soe.Feeding? <==> binding.hasSoeHandler) && soe != NoSoe
        else soe == old(soe)
    {
      hide Valid, Batch, Onward, OnlyHeard, ReactorScript.Consistent;
      ok := Prepare(r, raises);
      if ok {
        ghost var m := Now(r);
        ok := StartMaster(r, raises);
        OnwardTwice(old(Now(r)), m, Now(r));
      }
    }

    /** From here on the history knows that the adapter was enabled. */
    method NoteEnabled(ghost r: Reactor)
      requires Valid(r)
      modifies this`history
      ensures Valid(r) && history == old(history) + [Note(r.clock, Enabled)]
    {
      hide Latest, LatestLink, SeenIin, ReactorScript.Consistent, OneList, ManagersReleasedOnce, Settle.Points;
      NotedNow(Now(r), Enabled);
      StateAfter(history, Note(r.clock, Enabled));
      history := history + [Note(r.clock, Enabled)];
    }

    /**
    Wire the stack up to the foreign call that raises, if one does, with the reactor at
    work between any two of them. All that is reported meanwhile are its own reports.
    */
    method Enable(r: Reactor, raises: Wiring) returns (ok: bool)
      requires Valid(r)
      modifies this, r`clock, r`turn, r`arrivals, handler.points
      ensures Valid(r)
      ensures ok == raises.NoFailure? && (ok ==> r.turn == old(r.turn) + ENABLE_STEPS)
      ensures stopped == old(stopped) && mark == old(mark)
      ensures
        var noted := old(Now(r)).(history := old(history) + [Note(old(r.clock), Enabled)]);
        Meanwhile(r, noted)
      ensures enabled == (old(enabled) || ok)
      ensures (manager, managers) ==
        if raises in {LogHandler, NewManager} then (old(manager), old(managers))
        else (Some(old(managers)), old(managers) + 1)
      ensures master == (old(master) || raises.EnableMaster? || ok)
      ensures
        if MakesHandler(raises) then (soe.Feeding? <==> binding.hasSoeHandler) && soe != NoSoe
        else soe == old(soe)
    {
      hide Valid, Batch, Onward, OnlyHeard, ReactorScript.Consistent;
      NoteEnabled(r);
      ghost var noted := Now(r);
      ok := OpenChannel(r, raises);
      if ok {
        ghost var m := Now(r);
        ok := ConnectMaster(r, raises);
        OnwardTwice(noted, m, Now(r));
      }
    }

    /** A handler that captures the poll's own list; without the base class, the collector itself. */
    method MakeSoe() returns (s: Soe)
      ensures s.Feeding? <==> binding.hasSoeHandler
      ensures s.Feeding? ==> s.handler.points == handler.points
      ensures !s.Feeding? ==> s == Plain(handler)
    {
      if !binding.hasSoeHandler {
        s := Plain(handler);
      } else {
        var h := new SoeHandler(handler.points);
        s := Feeding(h);
      }
    }

    /** Whether, when it last looked, the latest state change since the latest stop was to OPEN. */
    method IsOnline(r: Reactor) returns (online: bool)
      requires Valid(r)
      modifies r`clock, r`turn, r`arrivals
      modifies this`channelState, this`linkStatus, this`lastIin, this`history, handler.points
      ensures Valid(r) && Meanwhile(r, old(Now(r)))
      ensures online == Online(history)
    {
      Interleave(r);
      if channelState.None? {
        return false;
      }
      Proceed(r, old(Now(r)));
      online := channelState == Some(ChannelState.Open);
    }

    /** What the link's own callbacks have reported; each of the three was so when it was read. */
    method LinkStatus(r: Reactor)
      returns (channelOpen: bool, keepAlive: Option<bool>, iinSeen: bool, ghost first: Moment, ghost second: Moment)
      requires Valid(r)
      modifies r`clock, r`turn, r`arrivals
      modifies this`channelState, this`linkStatus, this`lastIin, this`history, handler.points
      ensures Valid(r)
      ensures Onward(old(Now(r)), first) && Onward(first, second) && Onward(second, Now(r))
      ensures keepAlive == LatestLink(first.history)
      ensures channelOpen == Online(second.history)
      ensures iinSeen == SeenIin(history)
    {
      hide Batch, Latest, LatestLink, SeenIin, Onward, OnlyHeard, ReactorScript.Consistent;
      Interleave(r);
      keepAlive, first := linkStatus, Now(r);
      Interleave(r);
      channelOpen, second := channelState == Some(ChannelState.Open), Now(r);
      Interleave(r);
      iinSeen := lastIin;
    }

    method ForgetState(ghost r: Reactor)
      requires Valid(r)
      modifies this`channelState, this`history
      ensures Valid(r) && history == old(history) + [Note(r.clock, Stopped)]
    {
      hide Latest, LatestLink, SeenIin, ReactorScript.Consistent, OneList, ManagersReleasedOnce, Settle.Points;
      NotedNow(Now(r), Stopped);
      channelState := None;
      StateAfter(history, Note(r.clock, Stopped));
      history := history + [Note(r.clock, Stopped)];
    }

    /** `_enabled` and `_channel_state` are cleared, one after the other. */
    method Forget(r: Reactor) returns (ghost stop: Moment)
      requires Valid(r)
      modifies r`clock, r`turn, r`arrivals, this`enabled
      modifies this`channelState, this`linkStatus, this`lastIin, this`history, handler.points
      ensures Valid(r) && !enabled
      ensures Onward(old(Now(r)), stop) && OnlyHeard(old(Now(r)), stop)
      ensures Now(r) == stop.(history := stop.history + [Note(stop.clock, Stopped)])
    {
      hide Valid, Batch, Onward, OnlyHeard, ReactorScript.Consistent;
      Interleave(r);
      enabled := false;
      Proceed(r, old(Now(r)));
      stop := Now(r);
      ForgetState(r);
    }

    /** From here on the caller alone knows the manager. */
    method TakeManager(ghost r: Reactor) returns (live: Option<nat>)
      requires Valid(r)
      modifies this`manager
      ensures Valid(r) && manager == None && live == old(manager) && CanStop(live)
    {
      live := manager;
      manager := None;
    }

    /** A manager that was made, is not in use and was never told to shut down. */
    ghost predicate CanStop(live: Option<nat>)
      reads this`manager, this`managers, this`stopped
    {
      manager == None && (live.Some? ==> live.value < managers && live.value !in stopped)
    }

    ghost method TellManager(r: Reactor, live: nat)
      requires Valid(r) && CanStop(Some(live))
      modifies this`stopped
      ensures Valid(r) && stopped == old(stopped) + [live]
    {
      stopped := stopped + [live];
    }

    /** Take the live manager, tell it to shut down, and wait for that a bounded time. */
    method Release(r: Reactor, trouble: Trouble) returns (ok: bool)
      requires Valid(r)
      modifies r`clock, r`turn, r`arrivals, this`manager, this`stopped
      modifies this`channelState, this`linkStatus, this`lastIin, this`history, handler.points
      ensures Valid(r) && Meanwhile(r, old(Now(r))) && manager == None
      ensures ok == (old(manager).None? || trouble.NoTrouble?)
      ensures stopped ==
        old(stopped) + (if old(manager).Some? && !trouble.WorkerStart? then [old(manager).value] else [])
    {
      hide Valid, Batch, Onward, OnlyHeard, ReactorScript.Consistent;
      Interleave(r);
      var live := TakeManager(r);
      if live.None? {
        return true;
      }
      Proceed(r, old(Now(r)));
      if trouble.WorkerStart? {
        return false;
      }
      TellManager(r, live.value);
      Proceed(r, old(Now(r)));
      ok := !trouble.Join?;
    }

    /** What was reported before the state was forgotten at `stop`, and what after. */
    lemma StopInBetween(m: Moment, stop: Moment, n: Moment) returns (before: seq<Note>, late: seq<Note>)
      requires Onward(m, stop) && OnlyHeard(m, stop)
      requires
        var noted := stop.(history := stop.history + [Note(stop.clock, Stopped)]);
        Onward(noted, n) && OnlyHeard(noted, n)
      ensures n.history == m.history + before + [Note(stop.clock, Stopped)] + late
      ensures Heard(before) && Heard(late) && (Online(n.history) <==> Online(late)) && Onward(m, n)
    {
      before, late := stop.history[|m.history|..], n.history[|stop.history| + 1..];
      OnlyLateReportsCount(m.history + before, Note(stop.clock, Stopped), late);
    }

    /**
    Forget the channel state and shut the live manager down, if there is one. The
    reactor is at work all the while: what it reports late decides whether the adapter
    is online afterwards, and nothing else does.
    */
    method Shutdown(r: Reactor, trouble: Trouble)
      returns (ok: bool, ghost before: seq<Note>, ghost at: int, ghost late: seq<Note>)
      requires Valid(r)
      modifies this, r`clock, r`turn, r`arrivals, handler.points
      ensures Valid(r) && !enabled && manager == None
      ensures history == old(history) + before + [Note(at, Stopped)] + late && Heard(before) && Heard(late)
      ensures Online(history) <==> Online(late)
      ensures Onward(old(Now(r)), Now(r))
      ensures ok == (old(manager).None? || trouble.NoTrouble?)
      ensures stopped ==
        old(stopped) + (if old(manager).Some? && !trouble.WorkerStart? then [old(manager).value] else [])
      ensures master == old(master) && soe == old(soe) && managers == old(managers) && mark == old(mark)
    {
      hide Valid, Batch, Latest, ReactorScript.Consistent;
      ghost var stop := Forget(r);
      ok := Release(r, trouble);
      before, late := StopInBetween(old(Now(r)), stop, Now(r));
      at := stop.clock;
    }
  }

  /** The bound for the thresholds that a poll uses: 200 ms of quiet, looked at every 50 ms. */
  lemma DefaultBound(gap: int, skew: int)
    requires 0 <= skew
    ensures AlwaysComplete(QUIET, POLL, gap, skew) <==> gap + skew < 200_000 || gap < 50_000
  {
    CompletenessBound(QUIET, POLL, gap, skew);
  }

  /** A fresh adapter on a fresh reactor, enabled without trouble. */
  method EnabledAdapter(script: Script) returns (a: Adapter, r: Reactor)
    ensures fresh(a) && fresh(r) && fresh(a.handler) && fresh(a.handler.points)
    ensures a.Valid(r) && a.Fed() && a.binding.hasScanClasses
    ensures r.script == script && r.turn == ENABLE_STEPS
  {
    r := new Reactor(script, 0);
    a := new Adapter(Binding(true, true), r);
    var _ := a.Enable(r, NoFailure);
  }

  /** The script of a poll that loses a point, made to start once the adapter is enabled. */
  function LossyScript(gap: nat, late: nat): Script {
    n => LossyBatch(n - ENABLE_STEPS, gap, late)
  }

  /**
  Beyond the bound a poll can lose a point: gaps and skew keep to these limits, every
  point comes before the deadline, and the last one is missing from the result.
  */
  method LosePoint(gap: nat, late: nat)
    returns (result: seq<Point>, ghost w: Settle.Wait, ghost all: seq<Settle.Arrival>)
    requires !Settle.Bounded(QUIET, POLL, gap, late)
    ensures Settle.Valid(w) && w.quiet == QUIET && w.poll == POLL && Settle.Mild(w, all, gap, late)
    ensures |result| == late + 2
    ensures |all| == late + 3 && result == Settle.Points(all[..late + 2])
  {
    hide Batch, PollFrom, HeardOut, Latest, ReactorScript.Consistent, Settle.Valid, Settle.Mild, LossyBatch;
    var a, r := EnabledAdapter(LossyScript(gap, late));
    ghost var x, m := Setting(r.script, a.Fed(), QUIET, POLL), a.Now(r);
    LossyOutcome(x, m, gap, late, gap + late + 1);
    ghost var p;
    result, p := a.PollThenListen(r, gap + late + 1, 1, gap, late);
    w, all := p.w.value, a.Received(r);
  }
}
