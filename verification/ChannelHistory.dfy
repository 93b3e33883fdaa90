/** What has happened to an adapter's channel, in the order it happened and with its times. */
module ChannelHistory {
  import opened Options

  datatype ChannelState = Closed | Opening | Open | ShutDown

  datatype Signal =
    | Enabled                        // enable() was called
    | Changed(state: ChannelState)   // OnStateChange
    | KeepAlive(success: bool)       // OnKeepAlive...
    | Iin                            // OnReceiveIIN
    | Stopped                        // shutdown() was called

  datatype Note = Note(at: int, signal: Signal)

  /** The recorded channel state after these notes. */
  function Latest(history: seq<Note>): Option<ChannelState> {
    if history == [] then None
    else match history[|history| - 1].signal
      case Changed(state) => Some(state)
      case Stopped => None
      case _ => Latest(history[..|history| - 1])
  }

  /** The recorded result of the latest keep-alive; nothing ever resets it. */
  function LatestLink(history: seq<Note>): Option<bool> {
    if history == [] then None
    else match history[|history| - 1].signal
      case KeepAlive(success) => Some(success)
      case _ => LatestLink(history[..|history| - 1])
  }

  /** Whether IIN bits were ever received. */
  predicate SeenIin(history: seq<Note>) {
    exists n | n in history :: n.signal.Iin?
  }

  /** Note `i` is a keep-alive, and no later one is. */
  ghost predicate LastKeepAlive(history: seq<Note>, i: nat) {
    i < |history| && history[i].signal.KeepAlive? && forall j | i < j < |history| :: !history[j].signal.KeepAlive?
  }

  /** What is recorded of the link is the result of the latest keep-alive, if there was one. */
  lemma {:induction false} LatestLinkIff(history: seq<Note>)
    ensures LatestLink(history).None? ==> forall i | 0 <= i < |history| :: !history[i].signal.KeepAlive?
    ensures LatestLink(history).Some? ==>
      exists i: nat :: LastKeepAlive(history, i) && LatestLink(history) == Some(history[i].signal.success)
  {
    if history != [] {
      var n := |history| - 1;
      var init := history[..n];
      LatestLinkIff(init);
      if history[n].signal.KeepAlive? {
        assert LastKeepAlive(history, n);
      } else if LatestLink(init).Some? {
        var i: nat :| LastKeepAlive(init, i) && LatestLink(init) == Some(init[i].signal.success);
        assert LastKeepAlive(history, i);
      }
    }
  }

  /** What one more note does to everything that is recorded. */
  lemma StateAfter(history: seq<Note>, n: Note)
    ensures Latest(history + [n]) ==
      match n.signal case Changed(state) => Some(state) case Stopped => None case _ => Latest(history)
    ensures LatestLink(history + [n]) ==
      match n.signal case KeepAlive(success) => Some(success) case _ => LatestLink(history)
    ensures SeenIin(history + [n]) == (n.signal.Iin? || SeenIin(history))
  {
    assert (history + [n])[..|history|] == history;
    assert forall m :: m in history + [n] <==> m in history || m == n;
  }

  predicate Online(history: seq<Note>) {
    Latest(history) == Some(Open)
  }

  predicate Decides(n: Note) {
    n.signal.Changed? || n.signal.Stopped?
  }

  predicate Opens(n: Note) {
    n.signal == Changed(Open)
  }

  /** Note `i` opened the channel, and nothing up to note `seen` overtook it. */
  ghost predicate OpenSince(history: seq<Note>, i: nat, seen: nat) {
    i < |history| && seen <= |history| && Opens(history[i]) && forall j | i < j < seen :: !Decides(history[j])
  }

  /**
  Online means exactly: some state change to OPEN was followed by no other state
  change and no shutdown. Enabling, keep-alives and IIN bits never count.
  */
  lemma {:induction false} OnlineIff(history: seq<Note>)
    ensures Online(history) <==> exists i: nat :: OpenSince(history, i, |history|)
  {
    if history != [] {
      var n := |history| - 1;
      var init := history[..n];
      OnlineIff(init);
      if Opens(history[n]) {
        assert OpenSince(history, n, |history|);
      }
      if i: nat :| OpenSince(init, i, n) && !Decides(history[n]) {
        forall j | i < j < |history| ensures !Decides(history[j]) {
          assert j < n ==> history[j] == init[j];
        }
        assert OpenSince(history, i, |history|);
      }
      if i: nat :| OpenSince(history, i, |history|) && i < n {
        assert forall j | i < j < n :: init[j] == history[j];
        assert OpenSince(init, i, n);
      }
    }
  }

  /** `b` extends `a`, and whatever is new came at or after `from`. */
  ghost predicate Extends(a: seq<Note>, b: seq<Note>, from: int) {
    a <= b && forall i | |a| <= i < |b| :: from <= b[i].at
  }

  /** Reports of the stack, as against calls of the adapter's own methods. */
  ghost predicate Heard(notes: seq<Note>) {
    forall i | 0 <= i < |notes| :: !notes[i].signal.Enabled? && !notes[i].signal.Stopped?
  }

  /** After a shutdown only what is reported later counts. */
  lemma {:induction false} OnlyLateReportsCount(before: seq<Note>, stop: Note, late: seq<Note>)
    requires stop.signal.Stopped?
    ensures Latest(before + [stop] + late) == Latest(late)
  {
    var all := before + [stop] + late;
    if late == [] {
      assert all == before + [stop];
      StateAfter(before, stop);
    } else {
      var n := |late| - 1;
      OnlyLateReportsCount(before, stop, late[..n]);
      assert all == (before + [stop] + late[..n]) + [late[n]] && late == late[..n] + [late[n]];
      StateAfter(before + [stop] + late[..n], late[n]);
      StateAfter(late[..n], late[n]);
    }
  }
}
