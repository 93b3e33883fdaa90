/** What normalisation keeps, and what moving or re-expressing the times does. */
module SoeInvariance {
  import opened Options
  import opened SoeEvents
  import opened Substation
  import opened Citations

  // ----- normalisation -----

  /** Exactly the parsed entries stay, the naive ones only if nothing aware was parsed. */
  lemma {:induction false} KeptExactly(raws: seq<Raw>, anyAware: bool, e: Event)
    ensures e in Keep(raws, anyAware) <==> exists r | r in raws :: Keeps(r, anyAware) && ToEvent(r) == e
  {
    if raws != [] {
      KeptExactly(raws[1..], anyAware, e);
      assert forall r :: r in raws <==> r == raws[0] || r in raws[1..];
    }
  }

  /** A list of events, given again as naive entries. */
  function AsInput(es: seq<Event>): (raws: seq<Raw>)
    ensures |raws| == |es|
  {
    if es == [] then [] else [Entry(es[0].ref, Naive(es[0].ts), es[0].kind)] + AsInput(es[1..])
  }

  lemma {:induction false} AsInputIsKept(es: seq<Event>)
    requires forall e | e in es :: e.ref != ""
    ensures !AnyAware(AsInput(es)) && Keep(AsInput(es), false) == es
  {
    if es != [] {
      AsInputIsKept(es[1..]);
      assert forall r :: r in AsInput(es) <==> r == AsInput(es)[0] || r in AsInput(es[1..]);
    }
  }

  lemma NormalizedRefs(raws: seq<Raw>)
    ensures forall e | e in Normalized(raws) :: e.ref != ""
  {
    forall e | e in Normalized(raws) ensures e.ref != "" {
      SortIn(Parsed(raws), e);
      KeptExactly(raws, AnyAware(raws), e);
    }
  }

  /** Normalising is a stable sort of what was kept, and doing it again changes nothing. */
  lemma NormalizedMeans(raws: seq<Raw>)
    ensures IsStableSort(Normalized(raws), Parsed(raws))
    ensures multiset(Normalized(raws)) == multiset(Parsed(raws))
    ensures Normalized(AsInput(Normalized(raws))) == Normalized(raws)
  {
    SortIsStable(Parsed(raws));
    SortMultiset(Parsed(raws));
    NormalizedRefs(raws);
    AsInputIsKept(Normalized(raws));
    SortOfSorted(Normalized(raws));
  }

  // ----- time zones and shifts -----

  predicate SameInstant(s: Stamp, t: Stamp) {
    match (s, t)
    case (Aware(l, o), Aware(m, p)) => l - o == m - p
    case _ => s == t
  }

  predicate SameEntry(r: Raw, q: Raw) {
    if r.Entry? && q.Entry? then r.ref == q.ref && r.kind == q.kind && SameInstant(r.stamp, q.stamp) else r == q
  }

  lemma {:induction false} KeepSame(p: seq<Raw>, q: seq<Raw>, anyAware: bool)
    requires |p| == |q| && forall i | 0 <= i < |p| :: SameEntry(p[i], q[i])
    ensures Keep(p, anyAware) == Keep(q, anyAware)
  {
    if p != [] {
      KeepSame(p[1..], q[1..], anyAware);
    }
  }

  /** Re-expressing aware timestamps in other offsets changes nothing at all. */
  lemma OffsetsDoNotMatter(p: seq<Raw>, q: seq<Raw>, window: int, margin: int)
    requires |p| == |q| && forall i | 0 <= i < |p| :: SameEntry(p[i], q[i])
    ensures Analyze(p, window, margin) == Analyze(q, window, margin)
  {
    if r :| r in p && IsAware(r) {
      var i :| 0 <= i < |p| && p[i] == r;
      assert IsAware(q[i]) && q[i] in q;
    }
    if r :| r in q && IsAware(r) {
      var i :| 0 <= i < |q| && q[i] == r;
      assert IsAware(p[i]) && p[i] in p;
    }
    assert AnyAware(p) == AnyAware(q);
    KeepSame(p, q, AnyAware(p));
  }

  function Later(e: Event, d: int): Event {
    e.(ts := e.ts + d)
  }

  function Shift(es: seq<Event>, d: int): (r: seq<Event>)
    ensures |r| == |es|
    ensures forall i | 0 <= i < |r| :: r[i] == Later(es[i], d)
  {
    if es == [] then [] else [Later(es[0], d)] + Shift(es[1..], d)
  }

  function ShiftRaw(r: Raw, d: int): Raw {
    if !r.Entry? then r
    else match r.stamp
      case Invalid => r
      case Naive(local) => r.(stamp := Naive(local + d))
      case Aware(local, offset) => r.(stamp := Aware(local + d, offset))
  }

  function ShiftInput(raws: seq<Raw>, d: int): (r: seq<Raw>)
    ensures |r| == |raws|
    ensures forall i | 0 <= i < |r| :: r[i] == ShiftRaw(raws[i], d)
  {
    if raws == [] then [] else [ShiftRaw(raws[0], d)] + ShiftInput(raws[1..], d)
  }

  lemma {:induction false} KeepShift(raws: seq<Raw>, d: int, anyAware: bool)
    ensures Keep(ShiftInput(raws, d), anyAware) == Shift(Keep(raws, anyAware), d)
  {
    if raws != [] {
      KeepShift(raws[1..], d, anyAware);
      assert ShiftInput(raws, d)[1..] == ShiftInput(raws[1..], d);
      if Keeps(raws[0], anyAware) {
        assert Keep(raws, anyAware)[1..] == Keep(raws[1..], anyAware);
      }
    }
  }

  lemma AwareShift(raws: seq<Raw>, d: int)
    ensures AnyAware(ShiftInput(raws, d)) == AnyAware(raws)
  {
    var shifted := ShiftInput(raws, d);
    if r :| r in raws && IsAware(r) {
      var i :| 0 <= i < |raws| && raws[i] == r;
      assert IsAware(shifted[i]) && shifted[i] in shifted;
    }
    if r :| r in shifted && IsAware(r) {
      var i :| 0 <= i < |shifted| && shifted[i] == r;
      assert IsAware(raws[i]) && raws[i] in raws;
    }
  }

  lemma {:induction false} InsertShift(e: Event, es: seq<Event>, d: int)
    ensures Insert(Later(e, d), Shift(es, d)) == Shift(Insert(e, es), d)
  {
    if es != [] && e.ts > es[0].ts {
      InsertShift(e, es[1..], d);
      assert Insert(e, es)[1..] == Insert(e, es[1..]);
      assert Shift(es, d)[1..] == Shift(es[1..], d);
    } else {
      assert ([e] + es)[1..] == es;
    }
  }

  lemma {:induction false} SortShift(es: seq<Event>, d: int)
    ensures Sort(Shift(es, d)) == Shift(Sort(es), d)
  {
    if es != [] {
      SortShift(es[1..], d);
      assert Shift(es, d)[1..] == Shift(es[1..], d);
      InsertShift(es[0], Sort(es[1..]), d);
    }
  }

  lemma {:induction false} FilterShift(p: Test, es: seq<Event>, d: int)
    requires forall e: Event :: p(Later(e, d)) == p(e)
    ensures Filter(p, Shift(es, d)) == Shift(Filter(p, es), d)
  {
    if es != [] {
      FilterShift(p, es[1..], d);
      assert Shift(es, d)[1..] == Shift(es[1..], d);
      if p(es[0]) {
        assert Filter(p, es)[1..] == Filter(p, es[1..]);
      }
    }
  }

  function LaterCite(c: Cite, d: int): Cite {
    c.(ts := c.ts + d)
  }

  function ShiftCites(cites: seq<Cite>, d: int): (r: seq<Cite>)
    ensures |r| == |cites|
    ensures forall i | 0 <= i < |r| :: r[i] == LaterCite(cites[i], d)
  {
    seq(|cites|, i requires 0 <= i < |cites| => LaterCite(cites[i], d))
  }

  lemma CitesShift(cites: seq<Cite>, d: int, ref: string)
    ensures Cites(ShiftCites(cites, d), ref) == Cites(cites, ref)
  {
    var shifted := ShiftCites(cites, d);
    if c :| c in cites && c.ref == ref {
      var i :| 0 <= i < |cites| && cites[i] == c;
      assert shifted[i] in shifted;
    }
    if c :| c in shifted && c.ref == ref {
      var i :| 0 <= i < |shifted| && shifted[i] == c;
      assert cites[i] in cites;
    }
  }

  /** One more open adds the same citation after a shift. */
  lemma NextOpenShift(init: seq<Event>, e: Event, d: int)
    requires FirstOpens(Shift(init, d)) == ShiftCites(FirstOpens(init), d)
    ensures FirstOpens(Shift(init, d) + [Later(e, d)]) == ShiftCites(FirstOpens(init + [e]), d)
  {
    hide Shift, Cites;
    var shifted := Shift(init, d);
    CitesShift(FirstOpens(init), d, e.ref);
    assert (shifted + [Later(e, d)])[..|shifted|] == shifted && (init + [e])[..|init|] == init;
  }

  /** The same breakers are cited after a shift, each at its shifted time. */
  lemma {:induction false} FirstOpensShift(opens: seq<Event>, d: int)
    ensures FirstOpens(Shift(opens, d)) == ShiftCites(FirstOpens(opens), d)
  {
    hide FirstOpens;
    if opens == [] {
      NoOpens(d);
    } else {
      var n := |opens| - 1;
      FirstOpensShift(opens[..n], d);
      NextOpenShift(opens[..n], opens[n], d);
      assert opens[..n] + [opens[n]] == opens;
      assert Shift(opens[..n], d) + [Later(opens[n], d)] == Shift(opens, d);
    }
  }

  lemma NoOpens(d: int)
    ensures FirstOpens(Shift([], d)) == ShiftCites(FirstOpens([]), d)
  {
  }

  /** The same refs lose supply. */
  lemma {:induction false} OutageRefsShift(es: seq<Event>, d: int)
    ensures OutageRefs(Shift(es, d)) == OutageRefs(es)
  {
    if es != [] {
      var n := |es| - 1;
      assert Shift(es, d)[..n] == Shift(es[..n], d);
      OutageRefsShift(es[..n], d);
    }
  }

  function LaterOption(o: Option<Event>, d: int): Option<Event> {
    match o case None => None case Some(e) => Some(Later(e, d))
  }

  lemma {:induction false} RemoteShift(trip: Event, opens: seq<Event>, d: int)
    ensures FirstRemoteOpen(Later(trip, d), Shift(opens, d)) == LaterOption(FirstRemoteOpen(trip, opens), d)
  {
    if opens != [] {
      RemoteShift(trip, opens[1..], d);
      assert Shift(opens, d)[1..] == Shift(opens[1..], d);
    }
  }

  lemma LocalShift(trip: Event, opens: seq<Event>, window: int, d: int)
    ensures LocalOpenWithin(Later(trip, d), Shift(opens, d), window) == LocalOpenWithin(trip, opens, window)
  {
    hide Shift;
    var shifted := Shift(opens, d);
    if o :| o in opens && o.ref == trip.ref && 0 <= o.ts - trip.ts <= window {
      var i :| 0 <= i < |opens| && opens[i] == o;
      assert shifted[i] in shifted;
    }
    if o :| o in shifted && o.ref == trip.ref && 0 <= o.ts - Later(trip, d).ts <= window {
      var i :| 0 <= i < |shifted| && shifted[i] == o;
      assert opens[i] in opens;
    }
  }

  lemma BackupShift(trips: seq<Event>, opens: seq<Event>, window: int, d: int)
    ensures BackupOpen(Shift(trips, d), Shift(opens, d), window) == LaterOption(BackupOpen(trips, opens, window), d)
  {
    if trips != [] {
      assert Shift(trips, d)[0] == Later(trips[0], d);
      LocalShift(trips[0], opens, window, d);
      RemoteShift(trips[0], opens, d);
    }
  }

  lemma HeadShift(es: seq<Event>, d: int)
    ensures Head(Shift(es, d)) == LaterOption(Head(es), d)
  {
  }

  lemma CascadeShift(remote: Option<Event>, protection: Option<Event>, trip: Option<Event>, open: Option<Event>,
                     count: nat, window: int, margin: int, d: int)
    requires remote.Some? ==> trip.Some?
    requires count > 0 ==> open.Some?
    requires protection.Some? || open.Some?
    ensures Cascade(LaterOption(remote, d), LaterOption(protection, d), LaterOption(trip, d), LaterOption(open, d),
                    count, window, margin)
         == Cascade(remote, protection, trip, open, count, window, margin)
  {
  }

  lemma ClassifyShift(protections: seq<Event>, trips: seq<Event>, opens: seq<Event>, count: nat,
                      window: int, margin: int, d: int)
    requires count > 0 ==> opens != []
    ensures ClassifyVerdict(Shift(protections, d), Shift(trips, d), Shift(opens, d), count, window, margin)
         == ClassifyVerdict(protections, trips, opens, count, window, margin)
  {
    BackupShift(trips, opens, window, d);
    if protections != [] || opens != [] {
      HeadShift(protections, d);
      HeadShift(trips, d);
      HeadShift(opens, d);
      CascadeShift(BackupOpen(trips, opens, window), Head(protections), Head(trips), Head(opens),
                   count, window, margin, d);
    }
  }

  lemma JudgeShift(es: seq<Event>, d: int, window: int, margin: int)
    ensures Judge(Shift(es, d), window, margin) == Judge(es, window, margin)
  {
    FilterShift(PROTECTIONS, es, d);
    FilterShift(TRIPS, es, d);
    FilterShift(OPENS, es, d);
    FirstOpensShift(Filter(OPENS, es), d);
    ClassifyShift(Filter(PROTECTIONS, es), Filter(TRIPS, es), Filter(OPENS, es), |FirstOpens(Filter(OPENS, es))|,
                  Max(window, 0), Max(margin, 0), d);
  }

  function LaterPoint(c: Option<Cite>, d: int): Option<Cite> {
    match c case None => None case Some(cite) => Some(LaterCite(cite, d))
  }

  /** A report with every time in it moved. */
  function LaterReport(r: Report, d: int): Report {
    r.(firstProtection := LaterPoint(r.firstProtection, d),
       firstBreakerOpen := LaterPoint(r.firstBreakerOpen, d),
       breakersOpened := ShiftCites(r.breakersOpened, d),
       timeline := Shift(r.timeline, d))
  }

  lemma TakeShift(es: seq<Event>, cites: seq<Cite>, d: int)
    ensures Take(Shift(es, d), MAX_TIMELINE) == Shift(Take(es, MAX_TIMELINE), d)
    ensures Take(ShiftCites(cites, d), MAX_LIST) == ShiftCites(Take(cites, MAX_LIST), d)
  {
  }

  lemma PointShift(es: seq<Event>, d: int)
    ensures PointAtHead(Shift(es, d)) == LaterPoint(PointAtHead(es), d)
  {
  }

  lemma ReportShift(es: seq<Event>, ignored: nat, window: int, margin: int, d: int)
    ensures ReportOn(Shift(es, d), ignored, window, margin) == LaterReport(ReportOn(es, ignored, window, margin), d)
  {
    hide Filter, FirstOpens, OutageRefs, Judge, Take, PointAtHead, Shift, ShiftCites, LaterPoint;
    FilterShift(PROTECTIONS, es, d);
    FilterShift(OPENS, es, d);
    FirstOpensShift(Filter(OPENS, es), d);
    OutageRefsShift(es, d);
    JudgeShift(es, d, window, margin);
    PointShift(Filter(PROTECTIONS, es), d);
    PointShift(Filter(OPENS, es), d);
    TakeShift(es, FirstOpens(Filter(OPENS, es)), d);
  }

  /**
  Moving all times by a constant moves every time in the report and changes nothing else:
  verdict, status, detail, counts and refs stay as they are.
  */
  lemma ShiftDoesNotMatter(raws: seq<Raw>, d: int, window: int, margin: int)
    ensures Normalized(ShiftInput(raws, d)) == Shift(Normalized(raws), d)
    ensures Analyze(ShiftInput(raws, d), window, margin) == LaterReport(Analyze(raws, window, margin), d)
  {
    AwareShift(raws, d);
    KeepShift(raws, d, AnyAware(raws));
    SortShift(Parsed(raws), d);
    ReportShift(Normalized(raws), |raws| - |Normalized(raws)|, window, margin, d);
  }
}
