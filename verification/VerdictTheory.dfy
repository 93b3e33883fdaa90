/**
The verdict declared on the set of events, without lists, loops or sorting, and
what follows from it: independence of the input order, the effect of each
threshold, and what a selective verdict guarantees.
*/
module VerdictTheory {
  import opened Options
  import opened SoeEvents
  import opened Substation
  import opened Citations

  // ----- the declaration -----

  ghost predicate SomeOpen(evs: set<Event>) {
    exists o | o in evs :: o.kind.Open?
  }

  ghost predicate SomeTrip(evs: set<Event>) {
    exists t | t in evs :: t.kind.Trip?
  }

  ghost predicate SomeProtection(evs: set<Event>) {
    exists t | t in evs :: t.kind.Trip? || t.kind.Pickup?
  }

  ghost predicate SeveralOpeners(evs: set<Event>) {
    exists o, p | o in evs && p in evs :: o.kind.Open? && p.kind.Open? && o.ref != p.ref
  }

  /** The tripped breaker stayed shut through its window, and another one opened. */
  ghost predicate Fails(evs: set<Event>, trip: Event, window: int) {
    && (forall o | o in evs && o.kind.Open? && o.ref == trip.ref ::
          !(trip.ts <= o.ts <= trip.ts + Max(window, 0)))
    && exists o | o in evs :: o.kind.Open? && o.ref != trip.ref && trip.ts <= o.ts
  }

  ghost predicate EarliestTrip(evs: set<Event>, t: Event) {
    t in evs && t.kind.Trip? && forall u | u in evs && u.kind.Trip? :: t.ts <= u.ts
  }

  /** The protection event that delays are measured from: a trip if there is one. */
  ghost predicate IsReference(evs: set<Event>, r: Event) {
    if SomeTrip(evs) then EarliestTrip(evs, r)
    else r in evs && r.kind.Pickup? && forall u | u in evs && u.kind.Pickup? :: r.ts <= u.ts
  }

  /** Every breaker opened later than the margin allows. */
  ghost predicate Late(evs: set<Event>, margin: int) {
    exists r | r in evs && IsReference(evs, r) ::
      forall o | o in evs && o.kind.Open? :: o.ts - r.ts > Max(margin, 0)
  }

  ghost function Declared(evs: set<Event>, firstTrip: Option<Event>, window: int, margin: int): Verdict {
    if !SomeOpen(evs) then Insufficient
    else if firstTrip.Some? && Fails(evs, firstTrip.value, window) then BreakerFailure
    else if SeveralOpeners(evs) then BackupOperation
    else if !SomeProtection(evs) then BreakerOperationNoProtection
    else if Late(evs, margin) then BackupOperation
    else SelectiveTrip
  }

  function DeclaredStatus(v: Verdict, protected: bool): Status {
    match v
    case Insufficient => if protected then Inconclusive else NoOperation
    case BreakerOperationNoProtection => NoProtectionRecord
    case BreakerFailure => FailedBreaker
    case BackupOperation => NonSelective
    case SelectiveTrip => Selective
  }

  // ----- the scans, one at a time -----

  ghost function Elements(es: seq<Event>): set<Event> {
    set e | e in es
  }

  lemma {:induction false} FirstRemoteOpenFinds(trip: Event, opens: seq<Event>)
    ensures FirstRemoteOpen(trip, opens).Some? <==> exists o | o in opens :: o.ref != trip.ref && trip.ts <= o.ts
  {
    if opens != [] && !(opens[0].ref != trip.ref && opens[0].ts >= trip.ts) {
      FirstRemoteOpenFinds(trip, opens[1..]);
      assert forall o :: o in opens <==> o == opens[0] || o in opens[1..];
    }
  }

  lemma Selected(p: Test, es: seq<Event>)
    ensures forall e :: e in Filter(p, es) <==> e in es && p(e)
  {
    forall e ensures e in Filter(p, es) <==> e in es && p(e) {
      FilterIn(p, es, e);
    }
  }

  lemma {:induction false} SortedFilter(p: Test, es: seq<Event>)
    requires Sorted(es)
    ensures Sorted(Filter(p, es))
  {
    SortOfSorted(es);
    FilterSort(p, es);
    SortSorted(Filter(p, es));
  }

  /** The breaker-failure branch is taken exactly when the trip fails its breaker. */
  lemma FailureBranch(es: seq<Event>, trip: Event, window: int)
    ensures
      var opens := Filter(OPENS, es);
      (!LocalOpenWithin(trip, opens, Max(window, 0)) && FirstRemoteOpen(trip, opens).Some?)
      <==> Fails(Elements(es), trip, window)
  {
    var opens := Filter(OPENS, es);
    Selected(OPENS, es);
    FirstRemoteOpenFinds(trip, opens);
    forall o ensures o in opens <==> o in Elements(es) && o.kind.Open? {
    }
  }

  /** More than one breaker is counted exactly when two different refs opened. */
  lemma SeveralOpenersCounted(es: seq<Event>)
    ensures |FirstOpens(Filter(OPENS, es))| > 1 <==> SeveralOpeners(Elements(es))
    ensures |FirstOpens(Filter(OPENS, es))| == 0 <==> !SomeOpen(Elements(es))
    ensures Filter(OPENS, es) == [] <==> !SomeOpen(Elements(es))
  {
    hide Filter, FirstOpens, Chronological;
    var opens := Filter(OPENS, es);
    var cites := FirstOpens(opens);
    Selected(OPENS, es);
    CitedMeansOpened(opens);
    if opens != [] {
      assert opens[0] in opens && opens[0] in Elements(es);
      assert Opened(opens, opens[0].ref);
    }
    if |cites| > 1 {
      assert cites[0] in cites && cites[1] in cites;
      var o :| o in opens && cites[0] == Cite(o.ref, o.ts);
      var p :| p in opens && cites[1] == Cite(p.ref, p.ts);
      assert o in Elements(es) && p in Elements(es) && o.ref != p.ref;
    }
    if o, p :| o in Elements(es) && p in Elements(es) && o.kind.Open? && p.kind.Open? && o.ref != p.ref {
      assert Opened(opens, o.ref) && Opened(opens, p.ref);
    }
  }

  /** The event the code measures delays from. */
  lemma ReferenceChosen(es: seq<Event>)
    requires Sorted(es) && SomeProtection(Elements(es))
    ensures
      var trips, protections := Filter(TRIPS, es), Filter(PROTECTIONS, es);
      && protections != []
      && IsReference(Elements(es), if trips != [] then trips[0] else protections[0])
  {
    var trips, protections := Filter(TRIPS, es), Filter(PROTECTIONS, es);
    Selected(TRIPS, es);
    Selected(PROTECTIONS, es);
    SortedFilter(TRIPS, es);
    SortedFilter(PROTECTIONS, es);
    var t :| t in Elements(es) && (t.kind.Trip? || t.kind.Pickup?);
    assert t in protections;
    if trips != [] {
      assert trips[0] in trips && SomeTrip(Elements(es));
      forall u | u in Elements(es) && u.kind.Trip? ensures trips[0].ts <= u.ts {
        assert u in trips;
      }
    } else {
      assert protections[0] in protections;
      assert forall u | u in Elements(es) && u.kind.Trip? :: u in trips;
      forall u | u in Elements(es) && u.kind.Pickup? ensures protections[0].ts <= u.ts {
        assert u in protections;
      }
    }
  }

  /** Late means that the first open is late, whichever reference is taken. */
  lemma LateMeansFirstOpenLate(es: seq<Event>, r: Event, margin: int)
    requires Sorted(es) && IsReference(Elements(es), r) && SomeOpen(Elements(es))
    ensures Filter(OPENS, es) != []
    ensures Filter(OPENS, es)[0].ts - r.ts > Max(margin, 0) <==> Late(Elements(es), margin)
  {
    var opens := Filter(OPENS, es);
    Selected(OPENS, es);
    SortedFilter(OPENS, es);
    var o :| o in Elements(es) && o.kind.Open?;
    assert o in opens;
    assert opens[0] in opens;
    assert forall p | p in Elements(es) && p.kind.Open? :: p in opens;
    assert forall q | q in Elements(es) && IsReference(Elements(es), q) :: q.ts == r.ts;
  }

  function HeadTrip(es: seq<Event>): Option<Event> {
    Head(Filter(TRIPS, es))
  }

  /** The branches decide as declared, given what the scans before them stand for. */
  lemma CascadeIsDeclared(evs: set<Event>, remote: Option<Event>, protection: Option<Event>, trip: Option<Event>,
                          open: Option<Event>, count: nat, window: int, margin: int)
    requires remote.Some? <==> trip.Some? && Fails(evs, trip.value, window)
    requires protection.Some? <==> SomeProtection(evs)
    requires open.Some? <==> SomeOpen(evs)
    requires (count > 1 <==> SeveralOpeners(evs)) && (count == 0 <==> !SomeOpen(evs))
    requires protection.Some? || open.Some?
    requires trip.Some? ==> protection.Some?
    requires protection.Some? && open.Some? ==>
      var reference := if trip.Some? then trip.value else protection.value;
      open.value.ts - reference.ts > Max(margin, 0) <==> Late(evs, margin)
    ensures
      var j := Cascade(remote, protection, trip, open, count, Max(window, 0), Max(margin, 0));
      && j.verdict == Declared(evs, trip, window, margin)
      && j.status == DeclaredStatus(j.verdict, SomeProtection(evs))
  {
  }

  lemma ProtectionsFound(es: seq<Event>)
    ensures Filter(PROTECTIONS, es) != [] <==> SomeProtection(Elements(es))
    ensures Filter(TRIPS, es) != [] ==> Filter(PROTECTIONS, es) != []
  {
    var trips, protections := Filter(TRIPS, es), Filter(PROTECTIONS, es);
    Selected(TRIPS, es);
    Selected(PROTECTIONS, es);
    if trips != [] {
      assert trips[0] in trips && trips[0] in protections;
    }
    if protections != [] {
      assert protections[0] in protections && protections[0] in Elements(es);
    }
    if t :| t in Elements(es) && (t.kind.Trip? || t.kind.Pickup?) {
      assert t in protections;
    }
  }

  /** The cascade of branches over sorted lists computes the declared verdict. */
  lemma JudgeIsDeclared(es: seq<Event>, window: int, margin: int)
    requires Sorted(es)
    ensures Judge(es, window, margin).verdict == Declared(Elements(es), HeadTrip(es), window, margin)
    ensures Judge(es, window, margin).status ==
      DeclaredStatus(Judge(es, window, margin).verdict, SomeProtection(Elements(es)))
  {
    var evs, trips, protections, opens := Elements(es), Filter(TRIPS, es), Filter(PROTECTIONS, es), Filter(OPENS, es);
    SeveralOpenersCounted(es);
    ProtectionsFound(es);
    if protections != [] || opens != [] {
      if trips != [] {
        FailureBranch(es, trips[0], window);
      }
      if protections != [] && opens != [] {
        ReferenceChosen(es);
        LateMeansFirstOpenLate(es, if trips != [] then trips[0] else protections[0], margin);
      }
      CascadeIsDeclared(evs, BackupOpen(trips, opens, Max(window, 0)), Head(protections), Head(trips), Head(opens),
                        |FirstOpens(opens)|, window, margin);
    }
  }

  // ----- from raw entries -----

  /** The set of events an input contributes. */
  ghost function Events(raws: seq<Raw>): set<Event> {
    Elements(Parsed(raws))
  }

  function VerdictOf(raws: seq<Raw>, window: int, margin: int): Verdict {
    Analyze(raws, window, margin).judgement.verdict
  }

  function StatusOf(raws: seq<Raw>, window: int, margin: int): Status {
    Analyze(raws, window, margin).judgement.status
  }

  lemma SortKeepsElements(es: seq<Event>)
    ensures Elements(Sort(es)) == Elements(es)
  {
    forall e ensures e in Elements(Sort(es)) <==> e in Elements(es) {
      SortIn(es, e);
    }
  }

  /** The earliest of these events, and of equally early ones the first given. */
  ghost function FirstIndex(es: seq<Event>): (i: nat)
    requires es != []
    ensures IsFirst(es, i)
  {
    if |es| == 1 then 0
    else
      var k := FirstIndex(es[1..]);
      assert forall j | 1 <= j < |es| :: es[j] == es[1..][j - 1];
      if es[0].ts <= es[1 + k].ts then 0 else 1 + k
  }

  ghost function FirstTrip(raws: seq<Raw>): Option<Event> {
    var trips := Filter(TRIPS, Parsed(raws));
    if trips == [] then None else Some(trips[FirstIndex(trips)])
  }

  lemma FirstTripIsHead(raws: seq<Raw>)
    ensures HeadTrip(Normalized(raws)) == FirstTrip(raws)
  {
    var trips := Filter(TRIPS, Parsed(raws));
    FilterSort(TRIPS, Parsed(raws));
    if trips != [] {
      SortHead(trips, FirstIndex(trips));
    }
  }

  /** The verdict and the status are the declared ones on the set of events and the first trip. */
  lemma VerdictRefines(raws: seq<Raw>, window: int, margin: int)
    ensures VerdictOf(raws, window, margin) == Declared(Events(raws), FirstTrip(raws), window, margin)
    ensures StatusOf(raws, window, margin) ==
      DeclaredStatus(VerdictOf(raws, window, margin), SomeProtection(Events(raws)))
  {
    SortSorted(Parsed(raws));
    SortKeepsElements(Parsed(raws));
    FirstTripIsHead(raws);
    JudgeIsDeclared(Normalized(raws), window, margin);
  }

  /** There is a first trip if there is any, and none is earlier. */
  lemma FirstTripIsEarliest(raws: seq<Raw>)
    ensures FirstTrip(raws).Some? <==> SomeTrip(Events(raws))
    ensures FirstTrip(raws).Some? ==> EarliestTrip(Events(raws), FirstTrip(raws).value)
  {
    var trips := Filter(TRIPS, Parsed(raws));
    Selected(TRIPS, Parsed(raws));
    assert forall u | u in Events(raws) && u.kind.Trip? :: u in trips;
    if trips != [] {
      assert trips[FirstIndex(trips)] in trips;
    }
  }

  // ----- what each verdict means -----

  lemma VerdictsMean(raws: seq<Raw>, window: int, margin: int)
    ensures
      var v, evs, first := VerdictOf(raws, window, margin), Events(raws), FirstTrip(raws);
      && (v == Insufficient <==> !SomeOpen(evs))
      && (v == BreakerOperationNoProtection <==> SomeOpen(evs) && !SeveralOpeners(evs) && !SomeProtection(evs))
      && (v == BreakerFailure <==> first.Some? && Fails(evs, first.value, window))
      && (v == BackupOperation <==>
            && SomeOpen(evs) && !(first.Some? && Fails(evs, first.value, window))
            && (SeveralOpeners(evs) || (SomeProtection(evs) && Late(evs, margin))))
      && (v == SelectiveTrip <==>
            && SomeOpen(evs) && !(first.Some? && Fails(evs, first.value, window))
            && !SeveralOpeners(evs) && SomeProtection(evs) && !Late(evs, margin))
  {
    VerdictRefines(raws, window, margin);
    FirstTripIsEarliest(raws);
  }

  /**
  When a trip is followed by some open, selective means: only the first trip's breaker
  opened, and its earliest open came within the margin.
  */
  lemma SelectiveIsSafe(raws: seq<Raw>, window: int, margin: int)
    requires VerdictOf(raws, window, margin) == SelectiveTrip
    requires FirstTrip(raws).Some?
    requires exists o | o in Events(raws) :: o.kind.Open? && FirstTrip(raws).value.ts <= o.ts
    ensures forall o | o in Events(raws) && o.kind.Open? :: o.ref == FirstTrip(raws).value.ref
    ensures exists o | o in Events(raws) :: o.kind.Open? && o.ts <= FirstTrip(raws).value.ts + Max(margin, 0)
  {
    VerdictRefines(raws, window, margin);
    FirstTripIsEarliest(raws);
    var evs, trip := Events(raws), FirstTrip(raws).value;
    var late :| late in evs && late.kind.Open? && trip.ts <= late.ts;
    assert late.ref == trip.ref;
    assert IsReference(evs, trip);
  }

  // ----- the citations in the detail -----

  ghost predicate EarliestOpen(evs: set<Event>, o: Event) {
    o in evs && o.kind.Open? && forall p | p in evs && p.kind.Open? :: o.ts <= p.ts
  }

  ghost predicate OnlyOpener(evs: set<Event>, ref: string) {
    SomeOpen(evs) && forall o | o in evs && o.kind.Open? :: o.ref == ref
  }

  /** The first open elsewhere at or after the trip, `delay` later. */
  ghost predicate OpenedElsewhere(evs: set<Event>, trip: Event, remote: string, delay: int) {
    && delay >= 0 && remote != trip.ref
    && Event(remote, trip.ts + delay, Open) in evs
    && forall o | o in evs && o.kind.Open? && o.ref != trip.ref && trip.ts <= o.ts :: trip.ts + delay <= o.ts
  }

  ghost predicate OpenedLate(evs: set<Event>, breaker: string, delay: int) {
    exists o, r | o in evs && r in evs ::
      EarliestOpen(evs, o) && IsReference(evs, r) && o.ref == breaker && o.ts - r.ts == delay
  }

  /** What the detail claims is so of the events. */
  ghost predicate DetailHolds(evs: set<Event>, trip: Option<Event>, d: Detail, window: int, margin: int) {
    match d
    case NothingToCoordinate => !SomeProtection(evs) && !SomeOpen(evs)
    case OwnBreakerSilent(ref, w, remote, delay) =>
      && trip.Some? && ref == trip.value.ref && w == Max(window, 0) && Fails(evs, trip.value, window)
      && OpenedElsewhere(evs, trip.value, remote, delay)
    case Spread(n) => n > 1 && n == |set o | o in evs && o.kind.Open? :: o.ref|
    case Slow(breaker, delay, m) =>
      m == Max(margin, 0) && delay > m && OpenedLate(evs, breaker, delay) && OnlyOpener(evs, breaker)
    case NoRelayEvent(breaker) => OnlyOpener(evs, breaker) && !SomeProtection(evs)
    case Cleared(breaker) => OnlyOpener(evs, breaker) && SomeProtection(evs) && !Late(evs, margin)
    case NoInterruption => SomeProtection(evs) && !SomeOpen(evs)
  }

  lemma {:induction false} FirstRemoteIsEarliest(trip: Event, opens: seq<Event>)
    requires Sorted(opens) && FirstRemoteOpen(trip, opens).Some?
    ensures
      var remote := FirstRemoteOpen(trip, opens).value;
      && remote in opens && remote.ref != trip.ref && trip.ts <= remote.ts
      && forall o | o in opens && o.ref != trip.ref && trip.ts <= o.ts :: remote.ts <= o.ts
  {
    if !(opens[0].ref != trip.ref && opens[0].ts >= trip.ts) {
      FirstRemoteIsEarliest(trip, opens[1..]);
      assert forall o :: o in opens <==> o == opens[0] || o in opens[1..];
    }
  }

  lemma RemoteIsCited(es: seq<Event>, trip: Event, window: int)
    requires Sorted(es) && BackupOpen([trip], Filter(OPENS, es), window).Some?
    ensures
      var remote := BackupOpen([trip], Filter(OPENS, es), window).value;
      OpenedElsewhere(Elements(es), trip, remote.ref, remote.ts - trip.ts)
  {
    var opens := Filter(OPENS, es);
    Selected(OPENS, es);
    SortedFilter(OPENS, es);
    FirstRemoteIsEarliest(trip, opens);
    var remote := BackupOpen([trip], opens, window).value;
    assert remote == Event(remote.ref, trip.ts + (remote.ts - trip.ts), Open);
  }

  lemma FirstOpenIsEarliest(es: seq<Event>)
    requires Sorted(es) && SomeOpen(Elements(es))
    ensures Filter(OPENS, es) != [] && EarliestOpen(Elements(es), Filter(OPENS, es)[0])
    ensures !SeveralOpeners(Elements(es)) ==> OnlyOpener(Elements(es), Filter(OPENS, es)[0].ref)
  {
    var opens := Filter(OPENS, es);
    Selected(OPENS, es);
    SortedFilter(OPENS, es);
    assert forall p | p in Elements(es) && p.kind.Open? :: p in opens;
    assert opens != [] ==> opens[0] in opens;
  }

  lemma CountIsOfOpeners(es: seq<Event>)
    ensures |FirstOpens(Filter(OPENS, es))| == |set o | o in Elements(es) && o.kind.Open? :: o.ref|
  {
    var opens := Filter(OPENS, es);
    Selected(OPENS, es);
    CountIsOfDistinctRefs(opens);
    var a, b := set o | o in opens :: o.ref, set o | o in Elements(es) && o.kind.Open? :: o.ref;
    forall r ensures r in a <==> r in b {
    }
    assert a == b;
  }

  /** The details follow the branches, given what the scans before them stand for. */
  lemma CascadeDetailHolds(evs: set<Event>, remote: Option<Event>, protection: Option<Event>, trip: Option<Event>,
                           open: Option<Event>, count: nat, window: int, margin: int)
    requires remote.Some? ==>
      && trip.Some? && Fails(evs, trip.value, window)
      && OpenedElsewhere(evs, trip.value, remote.value.ref, remote.value.ts - trip.value.ts)
    requires protection.Some? <==> SomeProtection(evs)
    requires open.Some? <==> SomeOpen(evs)
    requires count == |set o | o in evs && o.kind.Open? :: o.ref| && (count > 0 ==> open.Some?)
    requires open.Some? ==> EarliestOpen(evs, open.value)
    requires open.Some? && count <= 1 ==> count == 1 && OnlyOpener(evs, open.value.ref)
    requires protection.Some? || open.Some?
    requires trip.Some? ==> protection.Some?
    requires protection.Some? && open.Some? ==>
      var reference := if trip.Some? then trip.value else protection.value;
      && reference in evs && IsReference(evs, reference)
      && (open.value.ts - reference.ts > Max(margin, 0) <==> Late(evs, margin))
    ensures
      var j := Cascade(remote, protection, trip, open, count, Max(window, 0), Max(margin, 0));
      DetailHolds(evs, trip, j.detail, window, margin)
  {
    hide Fails, OpenedElsewhere, SomeProtection, OnlyOpener, IsReference, Late;
    if protection.Some? && open.Some? {
      var reference := if trip.Some? then trip.value else protection.value;
      assert OpenedLate(evs, open.value.ref, open.value.ts - reference.ts);
    }
  }

  lemma JudgeDetailHolds(es: seq<Event>, window: int, margin: int)
    requires Sorted(es)
    ensures DetailHolds(Elements(es), HeadTrip(es), Judge(es, window, margin).detail, window, margin)
  {
    hide Filter, FirstOpens, Cascade, Late, OpenedElsewhere, Fails;
    var evs, trips, protections, opens := Elements(es), Filter(TRIPS, es), Filter(PROTECTIONS, es), Filter(OPENS, es);
    SeveralOpenersCounted(es);
    ProtectionsFound(es);
    if protections != [] || opens != [] {
      CountIsOfOpeners(es);
      var remote := BackupOpen(trips, opens, Max(window, 0));
      if opens != [] {
        FirstOpenIsEarliest(es);
      }
      if remote.Some? {
        FailureBranch(es, trips[0], window);
        RemoteIsCited(es, trips[0], Max(window, 0));
      }
      if protections != [] && opens != [] {
        ReferenceChosen(es);
        LateMeansFirstOpenLate(es, if trips != [] then trips[0] else protections[0], margin);
      }
      CascadeDetailHolds(evs, remote, Head(protections), Head(trips), Head(opens), |FirstOpens(opens)|,
                         window, margin);
    }
  }

  /** Whatever the detail text of a report cites is so. */
  lemma DetailIsTrue(raws: seq<Raw>, window: int, margin: int)
    ensures DetailHolds(Events(raws), FirstTrip(raws), Analyze(raws, window, margin).judgement.detail, window, margin)
  {
    SortSorted(Parsed(raws));
    SortKeepsElements(Parsed(raws));
    FirstTripIsHead(raws);
    JudgeDetailHolds(Normalized(raws), window, margin);
  }

  // ----- thresholds -----

  /** A longer breaker-failure window can only turn a breaker failure into a backup operation. */
  lemma WindowTransition(raws: seq<Raw>, shorter: int, longer: int, margin: int)
    requires shorter <= longer
    ensures
      var before, after := VerdictOf(raws, shorter, margin), VerdictOf(raws, longer, margin);
      after == before || (before == BreakerFailure && after == BackupOperation)
  {
    hide VerdictOf, Events, FirstTrip, SomeOpen, SomeProtection, Late;
    VerdictRefines(raws, shorter, margin);
    VerdictRefines(raws, longer, margin);
    FirstTripIsEarliest(raws);
    if FirstTrip(raws).Some? {
      var evs, trip := Events(raws), FirstTrip(raws).value;
      assert Fails(evs, trip, longer) ==> Fails(evs, trip, shorter);
      if Fails(evs, trip, shorter) && !Fails(evs, trip, longer) {
        var own :| own in evs && own.kind.Open? && own.ref == trip.ref
                   && trip.ts <= own.ts <= trip.ts + Max(longer, 0);
        var other :| other in evs && other.kind.Open? && other.ref != trip.ref;
        assert SeveralOpeners(evs);
      }
    }
  }

  /** A larger margin can only turn a backup operation into a selective trip. */
  lemma MarginTransition(raws: seq<Raw>, window: int, smaller: int, larger: int)
    requires smaller <= larger
    ensures
      var before, after := VerdictOf(raws, window, smaller), VerdictOf(raws, window, larger);
      after == before || (before == BackupOperation && after == SelectiveTrip)
  {
    VerdictRefines(raws, window, smaller);
    VerdictRefines(raws, window, larger);
    var evs := Events(raws);
    if Late(evs, larger) {
      var r :| r in evs && IsReference(evs, r)
               && forall o | o in evs && o.kind.Open? :: o.ts - r.ts > Max(larger, 0);
      assert forall o | o in evs && o.kind.Open? :: o.ts - r.ts > Max(smaller, 0);
      assert Late(evs, smaller);
    }
  }

  // ----- input order -----

  /** All the earliest trips agree on whether their breaker failed. */
  ghost predicate TiedTripsAgree(evs: set<Event>, window: int) {
    forall a, b | EarliestTrip(evs, a) && EarliestTrip(evs, b) :: Fails(evs, a, window) == Fails(evs, b, window)
  }

  function Without<T>(s: seq<T>, k: nat): seq<T>
    requires k < |s|
  {
    s[..k] + s[k + 1..]
  }

  lemma WithoutMultiset<T>(s: seq<T>, k: nat)
    requires k < |s|
    ensures multiset(s) == multiset{s[k]} + multiset(Without(s, k))
  {
    assert s == s[..k] + [s[k]] + s[k + 1..];
  }

  lemma KeepWithout(q: seq<Raw>, k: nat, anyAware: bool)
    requires k < |q|
    ensures multiset(Keep(q, anyAware)) ==
      multiset(Keep([q[k]], anyAware)) + multiset(Keep(Without(q, k), anyAware))
  {
    assert q == q[..k] + ([q[k]] + q[k + 1..]);
    KeepAppend(q[..k], [q[k]] + q[k + 1..], anyAware);
    KeepAppend([q[k]], q[k + 1..], anyAware);
    KeepAppend(q[..k], q[k + 1..], anyAware);
  }

  lemma {:induction false} KeepPermuted(p: seq<Raw>, q: seq<Raw>, anyAware: bool)
    requires multiset(p) == multiset(q)
    ensures multiset(Keep(p, anyAware)) == multiset(Keep(q, anyAware))
  {
    if p == [] {
      assert |multiset(q)| == 0;
    } else {
      assert p[0] in multiset(p);
      var k :| 0 <= k < |q| && q[k] == p[0];
      WithoutMultiset(p, 0);
      WithoutMultiset(q, k);
      assert multiset(Without(p, 0)) == multiset(p) - multiset{p[0]} == multiset(Without(q, k));
      KeepPermuted(Without(p, 0), Without(q, k), anyAware);
      KeepWithout(p, 0, anyAware);
      KeepWithout(q, k, anyAware);
    }
  }

  lemma PermutedInput(p: seq<Raw>, q: seq<Raw>)
    requires multiset(p) == multiset(q)
    ensures AnyAware(p) == AnyAware(q)
    ensures multiset(Parsed(p)) == multiset(Parsed(q))
    ensures Events(p) == Events(q)
  {
    assert forall r :: r in p <==> r in multiset(p);
    assert forall r :: r in q <==> r in multiset(q);
    KeepPermuted(p, q, AnyAware(p));
    assert forall e :: e in Parsed(p) <==> e in multiset(Parsed(p));
    assert forall e :: e in Parsed(q) <==> e in multiset(Parsed(q));
  }

  /** With no two events at the same instant the whole report ignores the input order. */
  lemma ReportIgnoresOrder(p: seq<Raw>, q: seq<Raw>, window: int, margin: int)
    requires multiset(p) == multiset(q) && DistinctTimes(Parsed(p))
    ensures Analyze(p, window, margin) == Analyze(q, window, margin)
  {
    PermutedInput(p, q);
    SortSorted(Parsed(p));
    SortSorted(Parsed(q));
    SortMultiset(Parsed(p));
    SortMultiset(Parsed(q));
    DistinctPermuted(Parsed(p), Normalized(p));
    SortedDistinctUnique(Normalized(p), Normalized(q));
    assert |p| == |multiset(p)| == |multiset(q)| == |q|;
  }

  ghost predicate VerdictIgnoresOrder(raws: seq<Raw>, window: int, margin: int) {
    forall q: seq<Raw> | multiset(q) == multiset(raws) ::
      VerdictOf(q, window, margin) == VerdictOf(raws, window, margin)
      && StatusOf(q, window, margin) == StatusOf(raws, window, margin)
  }

  /** An input that yields event `e` can be rearranged to yield it first. */
  lemma MovedToFront(raws: seq<Raw>, e: Event) returns (q: seq<Raw>)
    requires e in Events(raws)
    ensures multiset(q) == multiset(raws)
    ensures Parsed(q) != [] && Parsed(q)[0] == e
  {
    var k := KeptFrom(raws, AnyAware(raws), e);
    q := [raws[k]] + Without(raws, k);
    WithoutMultiset(raws, k);
    PermutedInput(q, raws);
  }

  lemma {:induction false} KeptFrom(raws: seq<Raw>, anyAware: bool, e: Event) returns (k: nat)
    requires e in Keep(raws, anyAware)
    ensures k < |raws| && Keeps(raws[k], anyAware) && ToEvent(raws[k]) == e
  {
    if Keeps(raws[0], anyAware) && ToEvent(raws[0]) == e {
      k := 0;
    } else {
      k := KeptFrom(raws[1..], anyAware, e);
      k := k + 1;
    }
  }

  lemma TripInFront(q: seq<Raw>, t: Event)
    requires Parsed(q) != [] && Parsed(q)[0] == t && EarliestTrip(Events(q), t)
    ensures FirstTrip(q) == Some(t)
  {
    var trips := Filter(TRIPS, Parsed(q));
    assert trips[0] == t;
    Selected(TRIPS, Parsed(q));
    var i := FirstIndex(trips);
    assert trips[i] in trips;
  }

  ghost predicate CanBeFirst(evs: set<Event>, first: Option<Event>) {
    (first.Some? <==> SomeTrip(evs)) && (first.Some? ==> EarliestTrip(evs, first.value))
  }

  lemma AgreeingFirstTrips(evs: set<Event>, s: Option<Event>, t: Option<Event>, window: int, margin: int)
    requires CanBeFirst(evs, s) && CanBeFirst(evs, t)
    requires s.Some? ==> Fails(evs, s.value, window) == Fails(evs, t.value, window)
    ensures Declared(evs, s, window, margin) == Declared(evs, t, window, margin)
  {
  }

  lemma DisagreeingFirstTrips(evs: set<Event>, s: Event, t: Event, window: int, margin: int)
    requires Fails(evs, s, window) != Fails(evs, t, window)
    ensures Declared(evs, Some(s), window, margin) != Declared(evs, Some(t), window, margin)
  {
  }

  lemma AgreementIgnoresOrder(raws: seq<Raw>, q: seq<Raw>, window: int, margin: int)
    requires TiedTripsAgree(Events(raws), window) && multiset(q) == multiset(raws)
    ensures VerdictOf(q, window, margin) == VerdictOf(raws, window, margin)
    ensures StatusOf(q, window, margin) == StatusOf(raws, window, margin)
  {
    PermutedInput(q, raws);
    VerdictRefines(raws, window, margin);
    VerdictRefines(q, window, margin);
    FirstTripIsEarliest(raws);
    FirstTripIsEarliest(q);
    AgreeingFirstTrips(Events(raws), FirstTrip(q), FirstTrip(raws), window, margin);
  }

  lemma DisagreementShows(raws: seq<Raw>, window: int, margin: int)
    requires !TiedTripsAgree(Events(raws), window)
    ensures !VerdictIgnoresOrder(raws, window, margin)
  {
    var evs := Events(raws);
    var a, b :| EarliestTrip(evs, a) && EarliestTrip(evs, b) && Fails(evs, a, window) != Fails(evs, b, window);
    FirstTripIsEarliest(raws);
    var first := FirstTrip(raws).value;
    var t := if Fails(evs, a, window) == Fails(evs, first, window) then b else a;
    var q := MovedToFront(raws, t);
    PermutedInput(q, raws);
    TripInFront(q, t);
    VerdictRefines(raws, window, margin);
    VerdictRefines(q, window, margin);
    DisagreeingFirstTrips(evs, first, t, window, margin);
    assert VerdictOf(q, window, margin) != VerdictOf(raws, window, margin);
  }

  /** The trips at the earliest time share one ref. */
  ghost predicate OneTrippedRef(evs: set<Event>) {
    forall a, b | EarliestTrip(evs, a) && EarliestTrip(evs, b) :: a.ref == b.ref
  }

  /** They are then one event, so they agree. */
  lemma SharedRefAgrees(evs: set<Event>, window: int)
    requires OneTrippedRef(evs)
    ensures TiedTripsAgree(evs, window)
  {
    forall a, b | EarliestTrip(evs, a) && EarliestTrip(evs, b) ensures a == b {
    }
  }

  /**
  The exact condition for the verdict to be independent of the input order: trips that
  share the earliest time agree on whether their breaker failed, which they do if they
  share a ref.
  */
  lemma OrderIndependence(raws: seq<Raw>, window: int, margin: int)
    ensures VerdictIgnoresOrder(raws, window, margin) <==> TiedTripsAgree(Events(raws), window)
    ensures OneTrippedRef(Events(raws)) ==> VerdictIgnoresOrder(raws, window, margin)
  {
    if OneTrippedRef(Events(raws)) {
      SharedRefAgrees(Events(raws), window);
    }
    if TiedTripsAgree(Events(raws), window) {
      forall q: seq<Raw> | multiset(q) == multiset(raws)
        ensures VerdictOf(q, window, margin) == VerdictOf(raws, window, margin)
        ensures StatusOf(q, window, margin) == StatusOf(raws, window, margin)
      {
        AgreementIgnoresOrder(raws, q, window, margin);
      }
    } else {
      DisagreementShows(raws, window, margin);
    }
  }

  const TRIP_1 := Event("R1", 0, Trip)
  const TRIP_2 := Event("R2", 0, Trip)
  const OPEN_2 := Event("R2", 80_000, Open)

  function RawOf(e: Event): Raw {
    Entry(e.ref, Naive(e.ts), e.kind)
  }

  /** Two trips in one instant, of which only one breaker opened. */
  function Tied(a: Event, b: Event): seq<Raw> {
    [RawOf(a), RawOf(b), RawOf(OPEN_2)]
  }

  lemma TiedIsParsed(a: Event, b: Event)
    requires a.ref != "" && b.ref != ""
    ensures Parsed(Tied(a, b)) == [a, b, OPEN_2]
  {
    var raws := Tied(a, b);
    assert !AnyAware(raws);
    assert raws[1..] == [RawOf(b), RawOf(OPEN_2)] && raws[1..][1..] == [RawOf(OPEN_2)];
    assert raws[1..][1..][1..] == [];
    assert Keep(raws[1..][1..], false) == [OPEN_2];
    assert Keep(raws[1..], false) == [b, OPEN_2];
  }

  lemma TiedFirstTrip(a: Event, b: Event)
    requires a.ref != "" && b.ref != "" && a.kind.Trip? && b.kind.Trip? && a.ts == b.ts == 0
    ensures FirstTrip(Tied(a, b)) == Some(a)
    ensures Events(Tied(a, b)) == {a, b, OPEN_2}
  {
    TiedIsParsed(a, b);
    var es := [a, b, OPEN_2];
    assert es[1..] == [b, OPEN_2] && es[1..][1..] == [OPEN_2] && es[1..][1..][1..] == [];
    assert Filter(TRIPS, es[1..][1..]) == [];
    assert Filter(TRIPS, es[1..]) == [b];
    assert Filter(TRIPS, es) == [a, b];
    var i := FirstIndex([a, b]);
  }

  lemma TiedFacts(evs: set<Event>)
    requires evs == {TRIP_1, TRIP_2, OPEN_2}
    ensures Fails(evs, TRIP_1, 250_000) && !Fails(evs, TRIP_2, 250_000)
    ensures SomeOpen(evs) && SomeProtection(evs) && !SeveralOpeners(evs) && !Late(evs, 500_000)
  {
    assert "R1"[1] != "R2"[1];
    assert OPEN_2 in evs && TRIP_1 in evs && TRIP_2 in evs;
  }

  lemma TiedVerdict(a: Event, b: Event, window: int, margin: int)
    requires a.ref != "" && b.ref != "" && a.kind.Trip? && b.kind.Trip? && a.ts == b.ts == 0
    ensures VerdictOf(Tied(a, b), window, margin) == Declared({a, b, OPEN_2}, Some(a), window, margin)
  {
    TiedFirstTrip(a, b);
    VerdictRefines(Tied(a, b), window, margin);
  }

  /**
  The order of the input can decide between a breaker failure and a selective trip: one
  permutation of these entries yields the one, another yields the other.
  */
  lemma OrderCanMatter()
    ensures multiset(Tied(TRIP_1, TRIP_2)) == multiset(Tied(TRIP_2, TRIP_1))
    ensures VerdictOf(Tied(TRIP_1, TRIP_2), 250_000, 500_000) == BreakerFailure
    ensures VerdictOf(Tied(TRIP_2, TRIP_1), 250_000, 500_000) == SelectiveTrip
  {
    hide VerdictOf, Fails, SomeOpen, SomeProtection, SeveralOpeners, Late;
    TiedVerdict(TRIP_1, TRIP_2, 250_000, 500_000);
    TiedVerdict(TRIP_2, TRIP_1, 250_000, 500_000);
    TiedFacts({TRIP_1, TRIP_2, OPEN_2});
    assert {TRIP_2, TRIP_1, OPEN_2} == {TRIP_1, TRIP_2, OPEN_2};
  }

  lemma {:induction false} DistinctPermuted(p: seq<Event>, q: seq<Event>)
    requires multiset(p) == multiset(q) && DistinctTimes(p)
    ensures DistinctTimes(q)
  {
    forall i, j | 0 <= i < |q| && 0 <= j < |q| && i != j ensures q[i].ts != q[j].ts {
      PairInMultiset(q, i, j);
      if q[i].ts == q[j].ts {
        var k, l := PairOf(p, q[i], q[j]);
      }
    }
  }

  lemma PairInMultiset(q: seq<Event>, i: nat, j: nat)
    requires i < |q| && j < |q| && i != j
    ensures multiset{q[i], q[j]} <= multiset(q)
  {
    var a, b := if i < j then i else j, if i < j then j else i;
    var before, after := q[..b], q[b..];
    assert q == before + after && before[a] == q[a] && after[0] == q[b];
    assert q[a] in multiset(before) && q[b] in multiset(after);
  }

  lemma PairOf(p: seq<Event>, x: Event, y: Event) returns (k: nat, l: nat)
    requires multiset{x, y} <= multiset(p)
    ensures k < |p| && l < |p| && k != l && p[k] == x && p[l] == y
  {
    assert x in multiset(p);
    k :| 0 <= k < |p| && p[k] == x;
    var rest := Without(p, k);
    WithoutMultiset(p, k);
    assert y in multiset(rest);
    var m :| 0 <= m < |rest| && rest[m] == y;
    l := if m < k then m else m + 1;
  }
}
