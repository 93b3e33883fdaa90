/** The life of foreign payloads: handed over, used, freed. */
module Payloads {
  /** The attributes of the binding module that the adapter looks up. */
  datatype Attr =
    | GetLogicalDeviceList | GetLogicalDeviceDirectory | GetLogicalNodeDirectory | GetDataDirectory
    | ReadObject
    | GetNext | GetData | ToCharP | ListDestroy
    | MmsDelete | GetType | GetDataAccessError
    | ToFloat | ToInt64 | ToUint32 | GetBoolean | ToText

  /** Payload `id` is the one returned by model call number `id`. */
  datatype Deed =
    | Got(id: nat)                      // returned by a call with error 0 or None
    | Used(id: nat, attr: Attr)         // passed to an accessor
    | Freed(id: nat, destructor: Attr)  // passed to a destructor

  datatype Status = Unknown | Live | Dead | Misused

  function Next(s: Status, d: Deed): Status {
    match (s, d)
    case (Unknown, Got(_)) => Live
    case (Live, Used(_, _)) => Live
    case (Live, Freed(_, _)) => Dead
    case _ => Misused
  }

  /** Where payload `id` stands after these deeds. */
  function StatusOf(ledger: seq<Deed>, id: nat): Status {
    if ledger == [] then Unknown
    else
      var s, d := StatusOf(ledger[..|ledger| - 1], id), ledger[|ledger| - 1];
      if d.id == id then Next(s, d) else s
  }

  lemma Recorded(ledger: seq<Deed>, d: Deed)
    ensures forall id ::
      StatusOf(ledger + [d], id) == (if d.id == id then Next(StatusOf(ledger, id), d) else StatusOf(ledger, id))
  {
    assert (ledger + [d])[..|ledger|] == ledger;
  }

  predicate Frees(d: Deed, id: nat) {
    d.Freed? && d.id == id
  }

  lemma {:induction false} NotYetFreed(ledger: seq<Deed>, id: nat)
    requires StatusOf(ledger, id) in {Unknown, Live}
    ensures forall i | 0 <= i < |ledger| :: !Frees(ledger[i], id)
  {
    if ledger != [] {
      NotYetFreed(ledger[..|ledger| - 1], id);
      assert ledger == ledger[..|ledger| - 1] + [ledger[|ledger| - 1]];
    }
  }

  /** Payload `id` is freed by deed `j`, only by it, and by the last deed of that id. */
  ghost predicate FreedAt(ledger: seq<Deed>, id: nat, j: nat) {
    && j < |ledger| && Frees(ledger[j], id)
    && (forall i | 0 <= i < |ledger| && i != j :: !Frees(ledger[i], id))
    && (forall i | j < i < |ledger| :: ledger[i].id != id)
  }

  /** Payload `id` was freed exactly once, and nothing was done to it since. */
  ghost predicate FreedOnce(ledger: seq<Deed>, id: nat) {
    exists j :: FreedAt(ledger, id, j)
  }

  /** Dead means freed exactly once, after being handed over, and untouched ever since. */
  lemma {:induction false} DeadMeans(ledger: seq<Deed>, id: nat)
    requires StatusOf(ledger, id) == Dead
    ensures Got(id) in ledger
    ensures FreedOnce(ledger, id)
  {
    var n := |ledger| - 1;
    var before := ledger[..n];
    if ledger[n].id == id {
      NotYetFreed(before, id);
      LiveMeans(before, id);
      assert FreedAt(ledger, id, n);
    } else {
      DeadMeans(before, id);
      var j :| FreedAt(before, id, j);
      assert FreedAt(ledger, id, j);
    }
  }

  lemma {:induction false} LiveMeans(ledger: seq<Deed>, id: nat)
    requires StatusOf(ledger, id) == Live
    ensures Got(id) in ledger
  {
    var n := |ledger| - 1;
    if ledger[n] != Got(id) {
      LiveMeans(ledger[..n], id);
    }
  }

  /** Whatever was freed since the ledger had `from` entries went to this destructor. */
  ghost predicate FreedWith(ledger: seq<Deed>, from: nat, destructor: Attr) {
    forall i | from <= i < |ledger| && ledger[i].Freed? :: ledger[i].destructor == destructor
  }

  lemma NothingFreed(ledger: seq<Deed>, destructor: Attr)
    ensures FreedWith(ledger, |ledger|, destructor)
  {
  }

  lemma {:induction false} UnknownMeans(ledger: seq<Deed>, id: nat)
    requires StatusOf(ledger, id) == Unknown
    ensures forall i | 0 <= i < |ledger| :: ledger[i].id != id
  {
    if ledger != [] {
      var n := |ledger| - 1;
      UnknownMeans(ledger[..n], id);
      assert forall i | 0 <= i < n :: ledger[i] == ledger[..n][i];
    }
  }

  /** Every payload that anything was done to was handed over and freed once. */
  ghost predicate Balanced(ledger: seq<Deed>) {
    forall d | d in ledger :: Got(d.id) in ledger && FreedOnce(ledger, d.id)
  }

  /** These payloads are live, and every other one is dead or was never handed over. */
  ghost predicate LiveExactly(ledger: seq<Deed>, live: set<nat>) {
    forall id: nat :: if id in live then StatusOf(ledger, id) == Live else StatusOf(ledger, id) in {Unknown, Dead}
  }

  /** Then these are the ones that were not freed, and a ledger balances exactly if there are none. */
  lemma LeaksBalance(ledger: seq<Deed>, live: set<nat>)
    requires LiveExactly(ledger, live)
    ensures forall d | d in ledger :: Got(d.id) in ledger && (FreedOnce(ledger, d.id) <==> d.id !in live)
    ensures Balanced(ledger) <==> live == {}
  {
    forall d | d in ledger ensures Got(d.id) in ledger && (FreedOnce(ledger, d.id) <==> d.id !in live) {
      if d.id in live {
        LiveMeans(ledger, d.id);
        NotYetFreed(ledger, d.id);
      } else if StatusOf(ledger, d.id) == Unknown {
        UnknownMeans(ledger, d.id);
      } else {
        DeadMeans(ledger, d.id);
      }
    }
    if id :| id in live {
      LiveMeans(ledger, id);
      assert Got(id).id == id;
    }
  }
}
