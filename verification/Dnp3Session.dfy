/**
The DNP3 session: a context manager around a real adapter and the reactor thread
that feeds it, with the bounded wait probing that adapter.
*/
module Dnp3Session {
  import opened Options
  import opened ChannelHistory
  import opened ReactorScript
  import opened SettleRun
  import opened Dnp3Driver
  import opened Sessions

  /** One turn of the wait: its guard's clock, and when and on how many notes it probed. */
  datatype Look = Look(guardAt: int, at: int, seen: nat)

  /** The look saw what had been noted before it, and nothing that was noted after it. */
  ghost predicate Placed(look: Look, history: seq<Note>) {
    && look.guardAt <= look.at && look.seen <= |history|
    && (forall k | 0 <= k < look.seen :: history[k].at <= look.at)
    && (forall k | look.seen <= k < |history| :: look.at <= history[k].at)
  }

  /** Looks a wait goes on after: in time, at least a sleep apart, and none of them found the channel open. */
  ghost predicate InVain(looks: seq<Look>, history: seq<Note>, start: int, deadline: int) {
    && (forall i | 0 <= i < |looks| ::
          && start <= looks[i].guardAt < deadline
          && Placed(looks[i], history) && !Online(history[..looks[i].seen]))
    && (forall i, j | 0 <= i < j < |looks| && j == i + 1 :: looks[i].at + WAIT_POLL <= looks[j].guardAt)
  }

  /** What a wait that has ended saw: all but the last look were in vain, and the last one decides. */
  ghost predicate Waited(looks: seq<Look>, ready: bool, history: seq<Note>, start: int, deadline: int) {
    && looks != []
    && InVain(looks[..|looks| - 1], history, start, deadline)
    && var last := looks[|looks| - 1];
    && Placed(last, history)
    && ready == Online(history[..last.seen])
    && (!ready ==> deadline <= last.guardAt)
  }

  ghost predicate AllBy(looks: seq<Look>, t: int) {
    forall i | 0 <= i < |looks| :: looks[i].at <= t
  }

  /** What is noted later changes nothing about a look. */
  lemma PlaceIsKept(look: Look, history: seq<Note>, later: seq<Note>, from: int)
    requires Placed(look, history) && look.at <= from && Extends(history, later, from)
    ensures Placed(look, later) && later[..look.seen] == history[..look.seen]
  {
  }

  lemma PastIsKept(looks: seq<Look>, history: seq<Note>, later: seq<Note>, from: int, start: int, deadline: int)
    requires InVain(looks, history, start, deadline) && AllBy(looks, from) && Extends(history, later, from)
    ensures InVain(looks, later, start, deadline)
  {
    forall i | 0 <= i < |looks|
      ensures Placed(looks[i], later) && later[..looks[i].seen] == history[..looks[i].seen]
    {
      PlaceIsKept(looks[i], history, later, from);
    }
  }

  lemma OutcomeIsKept(looks: seq<Look>, ready: bool, history: seq<Note>, later: seq<Note>, from: int,
                      start: int, deadline: int)
    requires Waited(looks, ready, history, start, deadline) && AllBy(looks, from) && Extends(history, later, from)
    ensures Waited(looks, ready, later, start, deadline)
  {
    PastIsKept(looks[..|looks| - 1], history, later, from, start, deadline);
    PlaceIsKept(looks[|looks| - 1], history, later, from);
  }

  // ----- what the wait decides -----

  /**
  The channel opened before the deadline, or in its very tick if the last look came
  after that, and nothing overtook it by the last look.
  */
  ghost predicate OpenedInTime(history: seq<Note>, last: Look, deadline: int) {
    exists i: nat :: OpenSince(history, i, last.seen) &&
      (history[i].at < deadline || history[i].at == deadline < last.at)
  }

  /** At the last look the newest state change was to OPEN. */
  ghost predicate OpenAtLook(history: seq<Note>, last: Look) {
    exists i: nat :: i < last.seen && OpenSince(history, i, last.seen)
  }

  lemma OpenAtLookIff(history: seq<Note>, last: Look)
    requires last.seen <= |history|
    ensures Online(history[..last.seen]) <==> OpenAtLook(history, last)
  {
    var past := history[..last.seen];
    OnlineIff(past);
    if i: nat :| OpenSince(past, i, |past|) {
      assert forall j | 0 <= j < |past| :: past[j] == history[j];
      assert OpenSince(history, i, last.seen);
    }
    if i: nat :| i < last.seen && OpenSince(history, i, last.seen) {
      assert forall j | 0 <= j < |past| :: past[j] == history[j];
      assert OpenSince(past, i, |past|);
    }
  }

  /** A session is let in only by an open channel, and one that opens in time and stays open is never missed. */
  ghost predicate Decided(looks: seq<Look>, ready: bool, history: seq<Note>, deadline: int)
    requires looks != []
  {
    var last := looks[|looks| - 1];
    (ready <==> OpenAtLook(history, last)) && (OpenedInTime(history, last, deadline) ==> ready)
  }

  /** The times say that what was noted before the deadline was there to be seen. */
  lemma WaitDecides(looks: seq<Look>, ready: bool, history: seq<Note>, start: int, deadline: int)
    requires Waited(looks, ready, history, start, deadline)
    ensures Decided(looks, ready, history, deadline)
  {
    var last := looks[|looks| - 1];
    OpenAtLookIff(history, last);
    if OpenedInTime(history, last, deadline) {
      var i: nat :| OpenSince(history, i, last.seen)
        && (history[i].at < deadline || history[i].at == deadline < last.at);
      assert i < last.seen || last.at <= history[i].at;
    }
  }

  /** In the tick of the deadline it can be missed: the channel opens right after the last look. */
  lemma SameTickCanBeMissed(deadline: int)
    ensures
      var history, last := [Note(deadline, Changed(Open))], Look(deadline, deadline, 0);
      && Waited([last], false, history, deadline, deadline)
      && OpenSince(history, 0, last.seen) && history[0].at == deadline
  {
    assert [Note(deadline, Changed(Open))][..0] == [];
  }

  // ----- the wait itself -----

  /** One more look, at the end of the history. */
  lemma LookedAgain(looks: seq<Look>, history: seq<Note>, start: int, deadline: int, look: Look)
    requires InVain(looks, history, start, deadline) && Placed(look, history) && start <= look.guardAt
    requires look.seen == |history|
    requires looks != [] ==> looks[|looks| - 1].at + WAIT_POLL <= look.guardAt
    ensures var more := looks + [look];
      && (Online(history) || deadline <= look.guardAt ==> Waited(more, Online(history), history, start, deadline))
      && (!Online(history) && look.guardAt < deadline ==> InVain(more, history, start, deadline))
  {
    var more := looks + [look];
    assert more[..|more| - 1] == looks && history[..|history|] == history;
    if !Online(history) && look.guardAt < deadline {
      forall i | 0 <= i < |more|
        ensures start <= more[i].guardAt < deadline && Placed(more[i], history) && !Online(history[..more[i].seen])
      {
        assert i < |looks| ==> more[i] == looks[i];
      }
    }
  }

  /** The readiness probe: `adapter.is_online()`. */
  method Probe(a: Adapter, r: Reactor, guard: int, ghost looks: seq<Look>, ghost start: int, ghost deadline: int)
    returns (online: bool, ghost more: seq<Look>)
    requires a.Valid(r) && InVain(looks, a.history, start, deadline) && AllBy(looks, r.clock)
    requires start <= guard <= r.clock
    requires looks != [] ==> looks[|looks| - 1].at + WAIT_POLL <= guard
    modifies r`clock, r`turn, r`arrivals
    modifies a`channelState, a`linkStatus, a`lastIin, a`history, a.handler.points
    ensures a.Valid(r) && a.Meanwhile(r, old(a.Now(r))) && AllBy(more, r.clock) && old(r.clock) <= r.clock
    ensures more != [] && more[|more| - 1].at == r.clock
    ensures if online || deadline <= guard then Waited(more, online, a.history, start, deadline)
            else InVain(more, a.history, start, deadline)
  {
    online := a.IsOnline(r);
    PastIsKept(looks, old(a.history), a.history, old(r.clock), start, deadline);
    ghost var look := Look(guard, r.clock, |a.history|);
    LookedAgain(looks, a.history, start, deadline, look);
    more := looks + [look];
  }

  /** The sleep after a look in vain, and the next guard's clock read. */
  method Pause(a: Adapter, r: Reactor, ghost looks: seq<Look>, ghost start: int, ghost deadline: int)
    returns (guard: int)
    requires a.Valid(r) && InVain(looks, a.history, start, deadline) && AllBy(looks, r.clock)
    modifies r`clock, r`turn, r`arrivals
    modifies a`channelState, a`linkStatus, a`lastIin, a`history, a.handler.points
    ensures a.Valid(r) && a.Meanwhile(r, old(a.Now(r)))
    ensures InVain(looks, a.history, start, deadline) && AllBy(looks, r.clock)
    ensures old(r.clock) + WAIT_POLL <= guard == r.clock
  {
    hide Batch, Asleep;
    guard := a.SleepThenReadClock(r, WAIT_POLL);
    PastIsKept(looks, old(a.history), a.history, old(r.clock), start, deadline);
  }

  /** The clock reads for the deadline and for the first guard. */
  method BeginWait(a: Adapter, r: Reactor) returns (begin: int, guard: int)
    requires a.Valid(r)
    modifies r`clock, r`turn, r`arrivals
    modifies a`channelState, a`linkStatus, a`lastIin, a`history, a.handler.points
    ensures a.Valid(r) && a.Meanwhile(r, old(a.Now(r)))
    ensures old(r.clock) <= begin <= guard == r.clock
  {
    hide Adapter.Valid, Batch, OnlyHeard, ReactorScript.Consistent;
    begin := a.ReadClock(r);
    ghost var before := a.Now(r);
    guard := a.ReadClock(r);
    OnwardTwice(old(a.Now(r)), before, a.Now(r));
  }

  /** The bounded wait with `is_online` as its probe. */
  method AwaitOnline(a: Adapter, r: Reactor, timeout: int)
    returns (ready: bool, ghost looks: seq<Look>, ghost start: int)
    requires a.Valid(r)
    modifies r`clock, r`turn, r`arrivals
    modifies a`channelState, a`linkStatus, a`lastIin, a`history, a.handler.points
    ensures a.Valid(r) && a.Meanwhile(r, old(a.Now(r)))
    ensures Waited(looks, ready, a.history, start, start + Max(0, timeout)) && AllBy(looks, r.clock)
    ensures Decided(looks, ready, a.history, start + Max(0, timeout))
  {
    hide Adapter.Valid, Batch, Waited, InVain, Decided, AllBy, Onward, OnlyHeard, ReactorScript.Consistent;
    var begin, guard := BeginWait(a, r);
    var deadline := begin + Max(0, timeout);
    start, looks := begin, [];
    ghost var m, before := old(a.Now(r)), a.Now(r);
    NoLooksYet(a.history, start, deadline, r.clock);
    while guard < deadline
      invariant a.Valid(r) && a.Meanwhile(r, m)
      invariant start <= guard == r.clock
      invariant InVain(looks, a.history, start, deadline) && AllBy(looks, r.clock)
      invariant looks != [] ==> looks[|looks| - 1].at + WAIT_POLL <= guard
      decreases deadline - guard
    {
      before := a.Now(r);
      ready, looks := Probe(a, r, guard, looks, start, deadline);
      OnwardTwice(m, before, a.Now(r));
      if ready {
        WaitDecides(looks, ready, a.history, start, deadline);
        return;
      }
      before := a.Now(r);
      guard := Pause(a, r, looks, start, deadline);
      OnwardTwice(m, before, a.Now(r));
    }
    before := a.Now(r);
    ready, looks := Probe(a, r, guard, looks, start, deadline);
    OnwardTwice(m, before, a.Now(r));
    WaitDecides(looks, ready, a.history, start, deadline);
  }

  lemma NoLooksYet(history: seq<Note>, start: int, deadline: int, t: int)
    ensures InVain([], history, start, deadline) && AllBy([], t)
  {
  }

  /** The looks of a wait are no more than the timeout has room for, and two. */
  lemma {:induction false} LooksAreBounded(looks: seq<Look>, history: seq<Note>, start: int, deadline: int, k: nat)
    requires InVain(looks, history, start, deadline) && k < |looks|
    ensures start + k * 50_000 <= looks[k].guardAt < deadline
  {
    if k > 0 {
      LooksAreBounded(looks, history, start, deadline, k - 1);
    }
  }

  // ----- the session -----

  /** What the body of a session does with the adapter it is given. */
  datatype Op = Poll(settle: int, scanRaises: bool) | Listen(steps: nat) | Stop(trouble: Trouble)

  /**
  At most one manager, shut down at most once: exactly if it was made, is gone, and was
  not lost by a shutdown that could not start its worker.
  */
  ghost predicate OneManager(a: Adapter, made: bool, lost: bool)
    reads a
  {
    && a.managers == (if made then 1 else 0)
    && a.stopped == (if made && a.manager.None? && !lost then [0] else [])
    && (a.manager.Some? ==> made && !lost && a.manager.value == 0)
  }

  /** How the shutdowns of a body go, in order; only the first of them has a manager to shut down. */
  function Stops(ops: seq<Op>): seq<Trouble> {
    if ops == [] then []
    else
      var op := ops[|ops| - 1];
      Stops(ops[..|ops| - 1]) + if op.Stop? then [op.trouble] else []
  }

  /** The scans that a body issues. */
  function Scans(ops: seq<Op>): nat {
    if ops == [] then 0
    else
      var op := ops[|ops| - 1];
      Scans(ops[..|ops| - 1]) + if op.Poll? && !op.scanRaises then 1 else 0
  }

  method Perform(a: Adapter, r: Reactor, op: Op, ghost lost: bool) returns (ghost lostNow: bool)
    requires a.Valid(r) && OneManager(a, true, lost) && a.master
    modifies a, r, a.handler.points
    ensures a.Valid(r) && Onward(old(a.Now(r)), a.Now(r)) && a.master
    ensures OneManager(a, true, lostNow)
    ensures if op.Stop? then a.manager.None? else a.manager == old(a.manager)
    ensures lostNow == (lost || (op == Stop(WorkerStart) && old(a.manager).Some?))
    ensures r.scans == old(r.scans) + (if op.Poll? && a.binding.hasScanClasses && !op.scanRaises then 1 else 0)
  {
    hide Adapter.Valid, Batch, Batches, PollFrom, Onward, OnlyHeard, ReactorScript.Consistent, Heard;
    lostNow := lost;
    match op
    case Poll(settle, scanRaises) =>
      PollEnds(Setting(r.script, a.Fed(), QUIET, POLL), a.Now(r), a.binding.hasScanClasses, settle);
      OnwardAtOnce(a.Now(r));
      BatchesMean(r.script, a.Fed(), a.Now(r), 2);
      var _, _, _ := a.IntegrityPoll(r, settle, scanRaises);
    case Listen(steps) =>
      BatchesMean(r.script, a.Fed(), a.Now(r), steps);
      a.Listen(r, steps);
    case Stop(trouble) =>
      lostNow := lost || (a.manager.Some? && trouble.WorkerStart?);
      var _, _, _, _ := a.Shutdown(r, trouble);
  }

  /** The manager is lost exactly if the first of these shutdowns cannot start its worker. */
  predicate Loses(stops: seq<Trouble>) {
    stops != [] && stops[0].WorkerStart?
  }

  method Body(a: Adapter, r: Reactor, ops: seq<Op>) returns (ghost lost: bool)
    requires a.Valid(r) && OneManager(a, true, false) && a.master && a.manager.Some?
    modifies a, r, a.handler.points
    ensures a.Valid(r) && Onward(old(a.Now(r)), a.Now(r))
    ensures OneManager(a, true, lost)
    ensures (lost <==> Loses(Stops(ops))) && (a.manager.Some? <==> Stops(ops) == [])
    ensures r.scans == old(r.scans) + (if a.binding.hasScanClasses then Scans(ops) else 0)
  {
    hide Adapter.Valid, Onward;
    lost := false;
    OnwardAtOnce(a.Now(r));
    for i := 0 to |ops|
      invariant a.Valid(r) && Onward(old(a.Now(r)), a.Now(r)) && a.master
      invariant OneManager(a, true, lost)
      invariant (lost <==> Loses(Stops(ops[..i]))) && (a.manager.Some? <==> Stops(ops[..i]) == [])
      invariant r.scans == old(r.scans) + (if a.binding.hasScanClasses then Scans(ops[..i]) else 0)
    {
      assert ops[..i + 1][..i] == ops[..i];
      ghost var m := a.Now(r);
      lost := Perform(a, r, ops[i], lost);
      OnwardTwice(old(a.Now(r)), m, a.Now(r));
    }
    assert ops[..|ops|] == ops;
  }

  lemma OnwardAtOnce(m: Moment)
    ensures Onward(m, m)
  {
  }

  /** The body is entered only if the channel was open at the last look. */
  method WaitThenEnter(a: Adapter, r: Reactor, timeout: int, ops: seq<Op>)
    returns (ready: bool, ghost looks: seq<Look>, ghost start: int, ghost lost: bool)
    requires a.Valid(r) && OneManager(a, true, false) && a.master && a.manager.Some?
    modifies a, r, a.handler.points
    ensures a.Valid(r) && OneManager(a, true, lost)
    ensures (lost <==> ready && Loses(Stops(ops))) && (a.manager.Some? <==> (ready ==> Stops(ops) == []))
    ensures r.scans == old(r.scans) + (if ready && a.binding.hasScanClasses then Scans(ops) else 0)
    ensures Waited(looks, ready, a.history, start, start + Max(0, timeout)) && AllBy(looks, r.clock)
  {
    hide Adapter.Valid, Batch, Waited, Decided, ReactorScript.Consistent;
    ready, looks, start := AwaitOnline(a, r, timeout);
    lost := false;
    if ready {
      ghost var m := a.Now(r);
      lost := Body(a, r, ops);
      OutcomeIsKept(looks, ready, m.history, a.history, m.clock, start, start + Max(0, timeout));
    }
  }

  /** Whether this `enable` gets as far as making a manager. */
  predicate MakesManager(raises: Wiring) {
    raises !in {LogHandler, NewManager}
  }

  /** What there is to tell about a session: what its wait saw, and how its shutdown went. */
  datatype Account = Account(
    ready: bool,
    looks: seq<Look>,
    start: int,        // clock when the wait began
    live: bool,        // whether there was a manager to shut down in the end
    lost: bool,        // whether the manager was lost by a shutdown that could not start its worker
    late: seq<Note>)   // reported after the last shutdown forgot the channel state

  /** The wait, as the whole history shows it. */
  ghost predicate Concluded(t: Account, history: seq<Note>, deadline: int) {
    && t.looks != []
    && Waited(t.looks, t.ready, history, t.start, deadline)
    && Decided(t.looks, t.ready, history, deadline)
  }

  /** ... and where it stands while the session is still going on. */
  ghost predicate SoFar(t: Account, m: Moment, deadline: int) {
    Waited(t.looks, t.ready, m.history, t.start, deadline) && AllBy(t.looks, m.clock)
  }

  /** The stages reached between the build and the release. */
  function Reached(s: Scenario, ready: bool): seq<Stage> {
    if !s.start.Done? then [] else if ready then [Started, Entered] else [Started]
  }

  /** Everything between the `try` and its `except`. */
  method Try(s: Scenario, a: Adapter, r: Reactor, raises: Wiring, timeout: int, ops: seq<Op>)
    returns (exit: Outcome, log: seq<Stage>, ghost t: Account)
    requires a.Valid(r) && OneManager(a, false, false)
    requires s.start.Done? <==> raises.NoFailure?
    modifies a, r, a.handler.points
    ensures a.Valid(r) && OneManager(a, MakesManager(raises), t.lost)
    ensures t.ready ==> s.start.Done?
    ensures t.lost <==> t.ready && Loses(Stops(ops))
    ensures a.manager.Some? <==> MakesManager(raises) && (t.ready ==> Stops(ops) == [])
    ensures r.scans == old(r.scans) + (if t.ready && a.binding.hasScanClasses then Scans(ops) else 0)
    ensures s.start.Done? ==> SoFar(t, a.Now(r), t.start + Max(0, timeout))
    ensures log == Reached(s, t.ready)
    ensures exit == if !s.start.Done? then s.start else if t.ready then s.body else RaisesTeaching
  {
    hide Adapter.Valid, Batch, Waited, AllBy;
    t := Account(false, [], 0, false, false, []);
    var ok := a.Enable(r, raises);
    if !ok {
      return s.start, [], t;
    }
    var ready;
    ghost var looks, start, lost;
    ready, looks, start, lost := WaitThenEnter(a, r, timeout, ops);
    t := Account(ready, looks, start, false, lost, []);
    if ready {
      exit, log := s.body, [Started, Entered];
    } else {
      exit, log := RaisesTeaching, [Started];
    }
  }

  /** Only a shutdown that has a manager to shut down can raise. */
  function AsReleased(s: Scenario, live: bool): Scenario {
    if live then s else s.(release := Done)
  }

  /** The log and the exit of a session whose build went well. */
  lemma LogIsLawful(s: Scenario, ready: bool, live: bool, log: seq<Stage>, exit: Outcome)
    requires s.protocolMatches && s.build.Done?
    requires log == [Built] + Reached(s, ready) + [Released]
    requires exit == if !s.start.Done? then s.start else if ready then s.body else RaisesTeaching
    requires ready ==> s.start.Done?
    ensures Lifecycle(s, log, ready) && Built in log && (Started in log <==> s.start.Done?)
    ensures Entered in log <==> ready
    ensures
      var u := AsReleased(s, live);
      Reports(u, log, Finally(Translated(exit), u.release), false)
  {
    assert log[0] == Built;
  }

  /** The history ends with a stop and these notes. */
  ghost predicate StoppedThen(history: seq<Note>, late: seq<Note>) {
    var n := |history| - |late|;
    n > 0 && history[n..] == late && history[n - 1].signal.Stopped?
  }

  /** How a session leaves its adapter: only what was reported late can make it look online. */
  ghost predicate LeftBehind(a: Adapter, t: Account, made: bool)
    reads a
  {
    && a.manager.None? && OneManager(a, made, t.lost)
    && StoppedThen(a.history, t.late) && Heard(t.late)
    && (Online(a.history) <==> Online(t.late))
  }

  lemma StopAndLate(history: seq<Note>, before: seq<Note>, stop: Note, late: seq<Note>)
    requires history == before + [stop] + late
    requires stop.signal.Stopped?
    ensures StoppedThen(history, late)
  {
  }

  /** The release of the adapter, and what the session's wait comes to in the end. */
  method CloseDown(a: Adapter, r: Reactor, trouble: Trouble,
                   ghost t: Account, ghost made: bool, ghost waited: bool, ghost deadline: int)
    returns (ok: bool, ghost u: Account)
    requires a.Valid(r) && OneManager(a, made, t.lost) && (waited ==> SoFar(t, a.Now(r), deadline))
    modifies a, r, a.handler.points
    ensures a.Valid(r) && LeftBehind(a, u, made)
    ensures u == t.(live := old(a.manager).Some?, lost := t.lost || (u.live && trouble.WorkerStart?), late := u.late)
    ensures ok == (!u.live || trouble.NoTrouble?) && r.scans == old(r.scans)
    ensures waited ==> Concluded(u, a.history, deadline)
  {
    hide Adapter.Valid, Batch, SoFar, Concluded, StoppedThen, Onward, Latest, ReactorScript.Consistent, Heard;
    var done, before, at, late := a.Shutdown(r, trouble);
    StopAndLate(a.history, old(a.history) + before, Note(at, Stopped), late);
    ok := done;
    u := t.(live := old(a.manager).Some?, late := late);
    u := u.(lost := t.lost || (u.live && trouble.WorkerStart?));
    if waited {
      OutcomeLater(old(a.Now(r)), a.Now(r), t, u, deadline);
    }
  }

  lemma OutcomeLater(m: Moment, n: Moment, t: Account, u: Account, deadline: int)
    requires SoFar(t, m, deadline) && Onward(m, n) && (u.looks, u.ready, u.start) == (t.looks, t.ready, t.start)
    ensures Concluded(u, n.history, deadline)
  {
    OutcomeIsKept(t.looks, t.ready, m.history, n.history, m.clock, t.start, deadline);
    WaitDecides(t.looks, t.ready, n.history, t.start, deadline);
  }

  /** `try`, `except` and `finally`: whatever happens before, the adapter is shut down. */
  method UseAdapter(s: Scenario, a: Adapter, r: Reactor, raises: Wiring, trouble: Trouble, timeout: int, ops: seq<Op>)
    returns (exit: Outcome, log: seq<Stage>, ghost t: Account)
    requires a.Valid(r) && OneManager(a, false, false)
    requires s.start.Done? <==> raises.NoFailure?
    requires s.release.Done? <==> trouble.NoTrouble?
    requires s.protocolMatches && s.build.Done?
    modifies a, r, a.handler.points
    ensures Lifecycle(s, log, t.ready) && Reports(AsReleased(s, t.live), log, exit, false) && Built in log
    ensures a.Valid(r) && LeftBehind(a, t, MakesManager(raises))
    ensures Entered in log <==> t.ready
    ensures t.ready ==> s.start.Done?
    ensures t.live <==> MakesManager(raises) && (t.ready ==> Stops(ops) == [])
    ensures t.lost <==> MakesManager(raises) && Loses((if t.ready then Stops(ops) else []) + [trouble])
    ensures r.scans == old(r.scans) + (if t.ready && a.binding.hasScanClasses then Scans(ops) else 0)
    ensures Started in log ==> Concluded(t, a.history, t.start + Max(0, timeout))
  {
    hide Adapter.Valid, SoFar, Concluded, Lifecycle, Reports, LeftBehind;
    // try
    exit, log, t := Try(s, a, r, raises, timeout, ops);
    // finally
    var ok;
    ok, t := CloseDown(a, r, trouble, t, MakesManager(raises), s.start.Done?, t.start + Max(0, timeout));
    log := [Built] + log + [Released];
    LogIsLawful(s, t.ready, t.live, log, exit);
    // except, and the last word of finally
    exit := Finally(Translated(exit), if ok then Done else s.release);
  }

  /**
  The build comes before the `try`, so its errors leave untranslated. Whatever the
  body does, the manager is told to shut down exactly once, unless a shutdown could
  not even start its worker.
  */
  method Session(s: Scenario, binding: Dnp3Driver.Binding, raises: Wiring, trouble: Trouble, r: Reactor,
                 timeout: int, ops: seq<Op>)
    returns (exit: Outcome, log: seq<Stage>, a: Adapter?, ghost t: Account)
    requires r.Consistent()
    requires s.start.Done? <==> raises.NoFailure?
    requires s.release.Done? <==> trouble.NoTrouble?
    modifies r
    ensures Lifecycle(s, log, t.ready)
    ensures Reports(if t.live then s else s.(release := Done), log, exit, false)
    ensures a != null <==> Built in log
    ensures a != null ==> fresh(a) && a.Valid(r) && LeftBehind(a, t, MakesManager(raises))
    ensures a != null ==>
      && (t.live <==> MakesManager(raises) && (Entered in log ==> Stops(ops) == []))
      && (t.lost <==> MakesManager(raises) && Loses((if Entered in log then Stops(ops) else []) + [trouble]))
    ensures r.scans == old(r.scans) + (if Entered in log && binding.hasScanClasses then Scans(ops) else 0)
    ensures Started in log ==> a != null && Concluded(t, a.history, t.start + Max(0, timeout))
  {
    hide Concluded, LeftBehind;
    log, a, t := [], null, Account(false, [], 0, false, false, []);
    if !s.protocolMatches {
      exit := RaisesTeaching;
      return;
    }
    exit := s.build;
    if !exit.Done? {
      return;
    }
    a := new Adapter(binding, r);
    exit, log, t := UseAdapter(s, a, r, raises, trouble, timeout, ops);
  }
}
