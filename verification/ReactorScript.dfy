/**
The reactor thread and the clock, as a script: before each atomic step of the caller
the next batch of it runs, with an arbitrary finite number of callbacks and an
arbitrary amount of time. A theorem over every script is one over every interleaving.
*/
module ReactorScript {
  import opened Measurements
  import opened ChannelHistory
  import Settle

  datatype Act =
    | Measure(collection: string, item: Item)
    | StateChange(state: ChannelState)
    | LinkResult(success: bool)
    | IinBits
    | Idle

  /** Something the reactor thread does, `after` ticks past what came before it. */
  datatype Tick = Tick(after: nat, act: Act)

  /** Batch number `n` runs before atomic step number `n` of the caller. */
  type Script = nat -> seq<Tick>

  /** How far the script has run, the time, and everything appended or reported until then. */
  datatype Moment = Moment(turn: nat, clock: int, arrivals: seq<Settle.Arrival>, history: seq<Note>)

  ghost predicate Consistent(m: Moment) {
    && Settle.InOrder(m.arrivals)
    && (forall i | 0 <= i < |m.arrivals| :: m.arrivals[i].at <= m.clock)
    && (forall i | 0 <= i < |m.history| :: m.history[i].at <= m.clock)
    && (forall i, j | 0 <= i < j < |m.history| :: m.history[i].at <= m.history[j].at)
  }

  /** Time goes on and the logs only grow. */
  ghost predicate Onward(m: Moment, n: Moment) {
    && m.turn <= n.turn && m.clock <= n.clock
    && Settle.Grew(m.arrivals, n.arrivals, m.clock)
    && Extends(m.history, n.history, m.clock)
  }

  /** The new reports are all the stack's own. */
  ghost predicate OnlyHeard(m: Moment, n: Moment) {
    m.history <= n.history && Heard(n.history[|m.history|..])
  }

  function ArrivalsOf(fed: bool, act: Act, clock: int): seq<Settle.Arrival> {
    if fed && act.Measure? then [Settle.Arrival(clock, Harvested(act.collection, act.item))] else []
  }

  function NotesOf(act: Act, clock: int): seq<Note> {
    match act
    case StateChange(state) => [Note(clock, Changed(state))]
    case LinkResult(success) => [Note(clock, KeepAlive(success))]
    case IinBits => [Note(clock, Iin)]
    case _ => []
  }

  /** `fed` says whether measurements reach a handler that records them. */
  function Ticked(fed: bool, t: Tick, m: Moment): Moment {
    var clock := m.clock + t.after;
    Moment(m.turn, clock, m.arrivals + ArrivalsOf(fed, t.act, clock), m.history + NotesOf(t.act, clock))
  }

  function Run(fed: bool, ticks: seq<Tick>, m: Moment): (n: Moment)
    ensures m.clock <= n.clock && n.turn == m.turn
    ensures |m.arrivals| <= |n.arrivals|
  {
    if ticks == [] then m else Ticked(fed, ticks[|ticks| - 1], Run(fed, ticks[..|ticks| - 1], m))
  }

  /** The next batch of the script has run. */
  function Batch(script: Script, fed: bool, m: Moment): (n: Moment)
    ensures m.clock <= n.clock && n.turn == m.turn + 1
    ensures |m.arrivals| <= |n.arrivals|
  {
    Run(fed, script(m.turn), m.(turn := m.turn + 1))
  }

  /** A sleep: the reactor keeps running and at least `d` ticks go by. */
  function Asleep(script: Script, fed: bool, m: Moment, d: nat): (n: Moment)
    ensures m.clock + d <= n.clock && n.turn == m.turn + 1
    ensures |m.arrivals| <= |n.arrivals|
  {
    var n := Batch(script, fed, m);
    if n.clock < m.clock + d then n.(clock := m.clock + d) else n
  }

  function Batches(script: Script, fed: bool, m: Moment, count: nat): Moment {
    if count == 0 then m else Batch(script, fed, Batches(script, fed, m, count - 1))
  }

  lemma TwoBatches(script: Script, fed: bool, m: Moment)
    ensures Batches(script, fed, m, 2) == Batch(script, fed, Batch(script, fed, m))
  {
    hide Batch;
    assert Batches(script, fed, m, 1) == Batch(script, fed, Batches(script, fed, m, 0));
  }

  lemma OnwardTwice(a: Moment, b: Moment, c: Moment)
    requires Onward(a, b) && Onward(b, c)
    ensures Onward(a, c)
    ensures OnlyHeard(a, b) && OnlyHeard(b, c) ==> OnlyHeard(a, c)
  {
    if OnlyHeard(a, b) && OnlyHeard(b, c) {
      assert c.history[|a.history|..] == b.history[|a.history|..] + c.history[|b.history|..];
    }
  }

  lemma TickedMeans(fed: bool, t: Tick, m: Moment)
    requires Consistent(m)
    ensures var n := Ticked(fed, t, m); Consistent(n) && Onward(m, n) && OnlyHeard(m, n)
  {
    hide Consistent;
    var late, n := m.(clock := m.clock + t.after), Ticked(fed, t, m);
    LaterIsConsistent(m, t.after);
    AppendedNow(late, ArrivalsOf(fed, t.act, late.clock), NotesOf(t.act, late.clock));
    assert n.history[|m.history|..] == NotesOf(t.act, n.clock);
  }

  lemma LaterIsConsistent(m: Moment, d: nat)
    requires Consistent(m)
    ensures Consistent(m.(clock := m.clock + d))
  {
  }

  /** What is appended now keeps the run consistent. */
  lemma AppendedNow(m: Moment, arrivals: seq<Settle.Arrival>, notes: seq<Note>)
    requires Consistent(m) && |arrivals| <= 1 && |notes| <= 1
    requires forall i | 0 <= i < |arrivals| :: arrivals[i].at == m.clock
    requires forall i | 0 <= i < |notes| :: notes[i].at == m.clock
    ensures Consistent(m.(arrivals := m.arrivals + arrivals, history := m.history + notes))
  {
  }

  /** A note made now keeps the run consistent. */
  lemma NotedNow(m: Moment, signal: Signal)
    requires Consistent(m)
    ensures Consistent(m.(history := m.history + [Note(m.clock, signal)]))
  {
  }

  /** A tick is its delay and then its act. */
  lemma DelayThenAct(fed: bool, t: Tick, m: Moment)
    ensures Ticked(fed, t, m) == Ticked(fed, Tick(0, t.act), m.(clock := m.clock + t.after))
  {
  }

  /** What each act adds. */
  lemma ActAdds(fed: bool, act: Act, m: Moment)
    ensures Ticked(fed, Tick(0, act), m) ==
      match act
      case Measure(c, item) =>
        if fed then m.(arrivals := m.arrivals + [Settle.Arrival(m.clock, Harvested(c, item))]) else m
      case StateChange(state) => m.(history := m.history + [Note(m.clock, Changed(state))])
      case LinkResult(success) => m.(history := m.history + [Note(m.clock, KeepAlive(success))])
      case IinBits => m.(history := m.history + [Note(m.clock, Iin)])
      case Idle => m
  {
    assert m.arrivals + [] == m.arrivals && m.history + [] == m.history;
  }

  lemma {:induction false} RunMeans(fed: bool, ticks: seq<Tick>, m: Moment)
    requires Consistent(m)
    ensures var n := Run(fed, ticks, m); Consistent(n) && Onward(m, n) && OnlyHeard(m, n)
  {
    if ticks != [] {
      var k := |ticks| - 1;
      RunMeans(fed, ticks[..k], m);
      var b := Run(fed, ticks[..k], m);
      TickedMeans(fed, ticks[k], b);
      OnwardTwice(m, b, Run(fed, ticks, m));
    }
  }

  /** Callbacks only ever append, with times no earlier than the clock before them. */
  lemma BatchMeans(script: Script, fed: bool, m: Moment)
    requires Consistent(m)
    ensures var n := Batch(script, fed, m); Consistent(n) && Onward(m, n) && OnlyHeard(m, n)
  {
    RunMeans(fed, script(m.turn), m.(turn := m.turn + 1));
  }

  lemma AsleepMeans(script: Script, fed: bool, m: Moment, d: nat)
    requires Consistent(m)
    ensures var n := Asleep(script, fed, m, d); Consistent(n) && Onward(m, n) && OnlyHeard(m, n)
  {
    BatchMeans(script, fed, m);
  }

  lemma {:induction false} BatchesMean(script: Script, fed: bool, m: Moment, count: nat)
    requires Consistent(m)
    ensures var n := Batches(script, fed, m, count); Consistent(n) && Onward(m, n) && OnlyHeard(m, n)
  {
    if count == 0 {
      assert m.history[|m.history|..] == [];
    } else {
      BatchesMean(script, fed, m, count - 1);
      var b := Batches(script, fed, m, count - 1);
      BatchMeans(script, fed, b);
      OnwardTwice(m, b, Batches(script, fed, m, count));
    }
  }
}
