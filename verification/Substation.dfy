/** Sequence-of-events protection analysis, from raw entries to a cited verdict. */
module Substation {
  import opened Options
  import opened SoeEvents

  /** A timestamp after parsing; times and offsets are microseconds. */
  datatype Stamp = Invalid | Naive(local: int) | Aware(local: int, offset: int)

  datatype Raw = NotAnEntry | Entry(ref: string, stamp: Stamp, kind: Kind)

  // ----- normalisation -----

  predicate Parses(r: Raw) {
    r.Entry? && !r.stamp.Invalid?
  }

  predicate IsAware(r: Raw) {
    r.Entry? && r.stamp.Aware?
  }

  predicate AnyAware(raws: seq<Raw>) {
    exists r | r in raws :: IsAware(r)
  }

  /** Naive times are ambiguous next to aware ones and are dropped. */
  predicate Keeps(r: Raw, anyAware: bool) {
    Parses(r) && (anyAware ==> IsAware(r))
  }

  function ToEvent(r: Raw): Event
    requires Parses(r)
  {
    Event(if r.ref == "" then "?" else r.ref,
          match r.stamp case Naive(local) => local case Aware(local, offset) => local - offset,
          r.kind)
  }

  /** The events that stay, in input order. */
  function Keep(raws: seq<Raw>, anyAware: bool): (es: seq<Event>)
    ensures |es| <= |raws|
  {
    if raws == [] then []
    else if Keeps(raws[0], anyAware) then [ToEvent(raws[0])] + Keep(raws[1..], anyAware)
    else Keep(raws[1..], anyAware)
  }

  function Parsed(raws: seq<Raw>): seq<Event> {
    Keep(raws, AnyAware(raws))
  }

  function Normalized(raws: seq<Raw>): seq<Event> {
    Sort(Parsed(raws))
  }

  lemma {:induction false} KeepAppend(a: seq<Raw>, b: seq<Raw>, anyAware: bool)
    ensures Keep(a + b, anyAware) == Keep(a, anyAware) + Keep(b, anyAware)
  {
    if a == [] {
      assert a + b == b;
    } else {
      assert (a + b)[1..] == a[1..] + b;
      KeepAppend(a[1..], b, anyAware);
    }
  }

  /** What one more entry adds. */
  lemma KeepNext(raws: seq<Raw>, r: Raw)
    ensures forall anyAware ::
      Keep(raws + [r], anyAware) == Keep(raws, anyAware) + if Keeps(r, anyAware) then [ToEvent(r)] else []
    ensures AnyAware(raws + [r]) == (AnyAware(raws) || IsAware(r))
  {
    forall anyAware ensures Keep(raws + [r], anyAware) == Keep(raws, anyAware) + Keep([r], anyAware) {
      KeepAppend(raws, [r], anyAware);
    }
    assert [r][1..] == [];
  }

  method Normalize(raws: seq<Raw>) returns (parsed: seq<Event>, ignored: nat)
    ensures parsed == Normalized(raws)
    ensures |parsed| + ignored == |raws|
  {
    hide Keep, AnyAware;
    var kept: seq<Raw> := [];
    ignored := 0;
    for i := 0 to |raws|
      invariant |kept| + ignored == i
      invariant forall k | 0 <= k < |kept| :: Parses(kept[k])
      invariant forall anyAware :: Keep(kept, anyAware) == Keep(raws[..i], anyAware)
      invariant AnyAware(kept) == AnyAware(raws[..i])
    {
      assert raws[..i + 1] == raws[..i] + [raws[i]];
      KeepNext(raws[..i], raws[i]);
      if !Parses(raws[i]) {
        ignored := ignored + 1;
      } else {
        KeepNext(kept, raws[i]);
        kept := kept + [raws[i]];
      }
    }
    assert raws[..|raws|] == raws;
    var anyAware := AnyAware(kept);
    parsed := [];
    NothingKept(anyAware);
    for i := 0 to |kept|
      invariant parsed == Keep(kept[..i], anyAware)
      invariant |parsed| + ignored + |kept| - i == |raws|
    {
      assert kept[..i + 1] == kept[..i] + [kept[i]];
      KeepNext(kept[..i], kept[i]);
      if anyAware && !IsAware(kept[i]) {
        ignored := ignored + 1;
      } else {
        parsed := parsed + [ToEvent(kept[i])];
      }
    }
    assert kept[..|kept|] == kept;
    parsed := Sort(parsed);
  }

  lemma NothingKept(anyAware: bool)
    ensures Keep([], anyAware) == []
  {
  }

  // ----- citations -----

  datatype Cite = Cite(ref: string, ts: int)

  predicate Cites(cites: seq<Cite>, ref: string) {
    exists c | c in cites :: c.ref == ref
  }

  /** The first open of each breaker, in the order the breakers come up. */
  function FirstOpens(opens: seq<Event>): seq<Cite> {
    if opens == [] then []
    else
      var cites, e := FirstOpens(opens[..|opens| - 1]), opens[|opens| - 1];
      if Cites(cites, e.ref) then cites else cites + [Cite(e.ref, e.ts)]
  }

  method DistinctOpens(opens: seq<Event>) returns (seen: seq<Cite>)
    ensures seen == FirstOpens(opens)
  {
    seen := [];
    for i := 0 to |opens|
      invariant seen == FirstOpens(opens[..i])
    {
      assert opens[..i + 1][..i] == opens[..i];
      if !Cites(seen, opens[i].ref) {
        seen := seen + [Cite(opens[i].ref, opens[i].ts)];
      }
    }
    assert opens[..|opens|] == opens;
  }

  predicate LosesSupply(k: Kind) {
    k.Open? || k.Lockout? || k.Undervoltage?
  }

  /** Every ref that lost supply, once, in the order they come up. */
  function OutageRefs(es: seq<Event>): seq<string> {
    if es == [] then []
    else
      var refs, e := OutageRefs(es[..|es| - 1]), es[|es| - 1];
      if LosesSupply(e.kind) && e.ref !in refs then refs + [e.ref] else refs
  }

  const MAX_TIMELINE := 50
  const MAX_LIST := 100

  function Take<T>(s: seq<T>, n: nat): seq<T> {
    if |s| <= n then s else s[..n]
  }

  method AffectedRefs(es: seq<Event>) returns (refs: seq<string>)
    ensures refs == Take(OutageRefs(es), MAX_LIST)
  {
    refs := [];
    for i := 0 to |es|
      invariant refs == OutageRefs(es[..i])
    {
      assert es[..i + 1][..i] == es[..i];
      if LosesSupply(es[i].kind) && es[i].ref !in refs {
        refs := refs + [es[i].ref];
      }
    }
    assert es[..|es|] == es;
    refs := Take(refs, MAX_LIST);
  }

  // ----- the verdict -----

  datatype Verdict = Insufficient | BreakerOperationNoProtection | BreakerFailure | BackupOperation | SelectiveTrip

  datatype Status = NoOperation | NoProtectionRecord | FailedBreaker | NonSelective | Selective | Inconclusive

  /** What the detail text cites. */
  datatype Detail =
    | NothingToCoordinate
    | OwnBreakerSilent(trip: string, window: int, remote: string, delay: int)
    | Spread(breakers: nat)
    | Slow(breaker: string, delay: int, margin: int)
    | NoRelayEvent(breaker: string)
    | Cleared(breaker: string)
    | NoInterruption

  datatype Judgement = Judgement(verdict: Verdict, status: Status, detail: Detail)

  /** Some open of the trip's own ref comes at the trip or up to `window` after it. */
  predicate LocalOpenWithin(trip: Event, opens: seq<Event>, window: int) {
    exists o | o in opens :: o.ref == trip.ref && 0 <= o.ts - trip.ts <= window
  }

  /** The first open on a different ref at or after the trip. */
  function FirstRemoteOpen(trip: Event, opens: seq<Event>): Option<Event> {
    if opens == [] then None
    else if opens[0].ref != trip.ref && opens[0].ts >= trip.ts then Some(opens[0])
    else FirstRemoteOpen(trip, opens[1..])
  }

  /** The open that makes a silent local breaker a breaker failure. */
  function BackupOpen(trips: seq<Event>, opens: seq<Event>, window: int): Option<Event> {
    if trips != [] && !LocalOpenWithin(trips[0], opens, window) then FirstRemoteOpen(trips[0], opens) else None
  }

  function Head(es: seq<Event>): Option<Event> {
    if es == [] then None else Some(es[0])
  }

  function ClassifyVerdict(protections: seq<Event>, trips: seq<Event>, opens: seq<Event>,
                           openCount: nat, window: int, margin: int): Judgement
    requires openCount > 0 ==> opens != []
  {
    if protections == [] && opens == [] then Judgement(Insufficient, NoOperation, NothingToCoordinate)
    else
      Cascade(BackupOpen(trips, opens, window), Head(protections), Head(trips), Head(opens), openCount, window, margin)
  }

  /**
  The branches in order, given the open found for the first of them. Of the lists only
  their heads matter.
  */
  function Cascade(remote: Option<Event>, protection: Option<Event>, trip: Option<Event>, open: Option<Event>,
                   openCount: nat, window: int, margin: int): Judgement
    requires remote.Some? ==> trip.Some?
    requires openCount > 0 ==> open.Some?
    requires protection.Some? || open.Some?
  {
    if remote.Some? then
      Judgement(BreakerFailure, FailedBreaker,
                OwnBreakerSilent(trip.value.ref, window, remote.value.ref, remote.value.ts - trip.value.ts))
    else if openCount > 1 then Judgement(BackupOperation, NonSelective, Spread(openCount))
    else
      var reference :=
        if trip.Some? then trip.value else if protection.Some? then protection.value else open.value;
      if open.Some? && open.value.ts - reference.ts > margin then
        Judgement(BackupOperation, NonSelective, Slow(open.value.ref, open.value.ts - reference.ts, margin))
      else if openCount == 1 then
        if protection.None? then
          Judgement(BreakerOperationNoProtection, NoProtectionRecord, NoRelayEvent(open.value.ref))
        else Judgement(SelectiveTrip, Selective, Cleared(open.value.ref))
      else Judgement(Insufficient, Inconclusive, NoInterruption)
  }

  const PROTECTIONS: Test := (e: Event) => e.kind.Pickup? || e.kind.Trip?
  const TRIPS: Test := (e: Event) => e.kind.Trip?
  const OPENS: Test := (e: Event) => e.kind.Open?

  /** The verdict on normalised events; negative thresholds count as 0. */
  function Judge(es: seq<Event>, window: int, margin: int): Judgement {
    var opens := Filter(OPENS, es);
    ClassifyVerdict(Filter(PROTECTIONS, es), Filter(TRIPS, es), opens, |FirstOpens(opens)|,
                    Max(window, 0), Max(margin, 0))
  }

  // ----- the report -----

  datatype Report = Report(
    analyzed: nat,
    ignored: nat,
    firstProtection: Option<Cite>,
    firstBreakerOpen: Option<Cite>,
    breakersOpened: seq<Cite>,
    breakerOpenCount: nat,
    affectedRefs: seq<string>,
    timeline: seq<Event>,
    judgement: Judgement)

  function PointAtHead(es: seq<Event>): Option<Cite> {
    if es == [] then None else Some(Cite(es[0].ref, es[0].ts))
  }

  /** Everything the report says about a list of normalised events. */
  function ReportOn(es: seq<Event>, ignored: nat, window: int, margin: int): Report {
    var breakers := FirstOpens(Filter(OPENS, es));
    Report(|es|, ignored,
           PointAtHead(Filter(PROTECTIONS, es)),
           PointAtHead(Filter(OPENS, es)),
           Take(breakers, MAX_LIST), |breakers|,
           Take(OutageRefs(es), MAX_LIST),
           Take(es, MAX_TIMELINE),
           Judge(es, window, margin))
  }

  function Analyze(raws: seq<Raw>, window: int, margin: int): Report {
    ReportOn(Normalized(raws), |raws| - |Normalized(raws)|, window, margin)
  }

  method SubstationEventAnalysis(raws: seq<Raw>, window: int, margin: int) returns (r: Report)
    ensures r == Analyze(raws, window, margin)
  {
    var parsed, ignored := Normalize(raws);
    var protections := Filter(PROTECTIONS, parsed);
    var trips := Filter(TRIPS, parsed);
    var opens := Filter(OPENS, parsed);
    var breakers := DistinctOpens(opens);
    var affected := AffectedRefs(parsed);
    r := Report(|parsed|, ignored, PointAtHead(protections), PointAtHead(opens),
                Take(breakers, MAX_LIST), |breakers|, affected, Take(parsed, MAX_TIMELINE),
                ClassifyVerdict(protections, trips, opens, |breakers|, Max(window, 0), Max(margin, 0)));
  }
}
