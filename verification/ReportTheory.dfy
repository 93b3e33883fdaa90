/** What the report says about raw input, field by field, and how its detail fits its verdict. */
module ReportTheory {
  import opened Options
  import opened SoeEvents
  import opened Substation
  import opened Citations
  import opened VerdictTheory

  // ----- which entries are analysed -----

  /** Positions of entries that are kept, in ascending order. */
  ghost predicate Places(at: seq<nat>, raws: seq<Raw>, anyAware: bool) {
    && (forall k, l | 0 <= k < l < |at| :: at[k] < at[l])
    && (forall k | 0 <= k < |at| :: at[k] < |raws| && Keeps(raws[at[k]], anyAware))
  }

  /** No entry that is kept is left out. */
  ghost predicate AllPlaced(at: seq<nat>, raws: seq<Raw>, anyAware: bool) {
    forall i | 0 <= i < |raws| && Keeps(raws[i], anyAware) :: i in at
  }

  /** The events at these positions. */
  ghost predicate AreAt(es: seq<Event>, at: seq<nat>, raws: seq<Raw>, anyAware: bool)
    requires Places(at, raws, anyAware)
  {
    |at| == |es| && forall k | 0 <= k < |at| :: es[k] == ToEvent(raws[at[k]])
  }

  /** The positions for one more entry. */
  function Extended(at: seq<nat>, n: nat, kept: bool): seq<nat> {
    if kept then at + [n] else at
  }

  lemma OneMorePlace(at: seq<nat>, raws: seq<Raw>, r: Raw, anyAware: bool)
    requires Places(at, raws, anyAware)
    ensures Places(Extended(at, |raws|, Keeps(r, anyAware)), raws + [r], anyAware)
  {
    hide Keeps;
  }

  lemma StillAllPlaced(at: seq<nat>, raws: seq<Raw>, r: Raw, anyAware: bool)
    requires AllPlaced(at, raws, anyAware)
    ensures AllPlaced(Extended(at, |raws|, Keeps(r, anyAware)), raws + [r], anyAware)
  {
    hide Keeps;
    var more, all := Extended(at, |raws|, Keeps(r, anyAware)), raws + [r];
    forall i | 0 <= i < |all| && Keeps(all[i], anyAware) ensures i in more {
      assert all[i] == if i < |raws| then raws[i] else r;
    }
  }

  lemma OneMoreEvent(es: seq<Event>, at: seq<nat>, raws: seq<Raw>, r: Raw, anyAware: bool)
    requires Places(at, raws, anyAware) && AreAt(es, at, raws, anyAware)
    requires Places(Extended(at, |raws|, Keeps(r, anyAware)), raws + [r], anyAware)
    ensures AreAt(es + (if Keeps(r, anyAware) then [ToEvent(r)] else []),
                  Extended(at, |raws|, Keeps(r, anyAware)), raws + [r], anyAware)
  {
    assert es + [] == es;
  }

  /** What is kept stands at some positions of the input, in the same order. */
  lemma {:induction false} KeptAt(raws: seq<Raw>, anyAware: bool) returns (at: seq<nat>)
    ensures Places(at, raws, anyAware) && AllPlaced(at, raws, anyAware)
    ensures AreAt(Keep(raws, anyAware), at, raws, anyAware)
  {
    hide Keep, Keeps, ToEvent, Places, AllPlaced, AreAt, Extended;
    if raws == [] {
      at := [];
      NothingPlaced(anyAware);
    } else {
      var n := |raws| - 1;
      var init := KeptAt(raws[..n], anyAware);
      OneMorePlace(init, raws[..n], raws[n], anyAware);
      StillAllPlaced(init, raws[..n], raws[n], anyAware);
      OneMoreEvent(Keep(raws[..n], anyAware), init, raws[..n], raws[n], anyAware);
      KeepNext(raws[..n], raws[n]);
      assert raws == raws[..n] + [raws[n]];
      at := Extended(init, n, Keeps(raws[n], anyAware));
    }
  }

  lemma NothingPlaced(anyAware: bool)
    ensures Places([], [], anyAware) && AllPlaced([], [], anyAware) && AreAt(Keep([], anyAware), [], [], anyAware)
  {
  }

  lemma AnyAwareIff(raws: seq<Raw>)
    ensures AnyAware(raws) <==> exists j :: 0 <= j < |raws| && raws[j].Entry? && raws[j].stamp.Aware?
  {
    if r :| r in raws && IsAware(r) {
      var j :| 0 <= j < |raws| && raws[j] == r;
    }
    if j :| 0 <= j < |raws| && raws[j].Entry? && raws[j].stamp.Aware? {
      assert raws[j] in raws;
    }
  }

  /**
  The mixed-timezone rule: next to an aware timestamp exactly the entries with aware ones are
  analysed, otherwise exactly those with naive ones, in input order; all the others are ignored.
  */
  lemma AnalysedByStamp(raws: seq<Raw>, window: int, margin: int) returns (at: seq<nat>)
    ensures forall k, l | 0 <= k < l < |at| :: at[k] < at[l]
    ensures forall i: nat ::
      i in at <==>
        && i < |raws| && raws[i].Entry?
        && (|| raws[i].stamp.Aware?
            || (raws[i].stamp.Naive? && forall j | 0 <= j < |raws| :: raws[j].Entry? ==> !raws[j].stamp.Aware?))
    ensures |Parsed(raws)| == |at|
    ensures forall k | 0 <= k < |at| ::
      && at[k] < |raws| && raws[at[k]].Entry? && !raws[at[k]].stamp.Invalid?
      && Parsed(raws)[k].ref == (if raws[at[k]].ref == "" then "?" else raws[at[k]].ref)
      && Parsed(raws)[k].kind == raws[at[k]].kind
      && Parsed(raws)[k].ts ==
           match raws[at[k]].stamp case Naive(local) => local case Aware(local, offset) => local - offset
    ensures Analyze(raws, window, margin).analyzed == |at|
    ensures Analyze(raws, window, margin).ignored == |raws| - |at|
  {
    hide Keep, AnyAware;
    AnyAwareIff(raws);
    at := KeptAt(raws, AnyAware(raws));
    assert forall i | i in at :: exists k :: 0 <= k < |at| && at[k] == i;
  }

  // ----- the first events -----

  /** The first event after sorting is the earliest one, and of equally early ones the first given. */
  lemma HeadIsFirst(p: Test, raws: seq<Raw>)
    ensures
      var es, given := Filter(p, Normalized(raws)), Filter(p, Parsed(raws));
      && (es == [] <==> given == [])
      && (es != [] ==> IsFirst(given, FirstIndex(given)) && es[0] == given[FirstIndex(given)] && es[0] in given)
  {
    var given := Filter(p, Parsed(raws));
    FilterSort(p, Parsed(raws));
    if given != [] {
      SortHead(given, FirstIndex(given));
    }
  }

  ghost predicate EarliestProtection(evs: set<Event>, p: Event) {
    && p in evs && (p.kind.Trip? || p.kind.Pickup?)
    && forall q | q in evs && (q.kind.Trip? || q.kind.Pickup?) :: p.ts <= q.ts
  }

  /**
  The report's first protection event and first open are the earliest of their kind, if there
  are any, and of equally early ones the first given.
  */
  lemma FirstEventsAreTrue(raws: seq<Raw>, window: int, margin: int)
    ensures
      var r, evs := Analyze(raws, window, margin), Events(raws);
      && (r.firstProtection == None <==> !SomeProtection(evs))
      && (r.firstProtection.Some? ==>
            exists p :: EarliestProtection(evs, p) && r.firstProtection == Some(Cite(p.ref, p.ts)))
      && (r.firstBreakerOpen == None <==> !SomeOpen(evs))
      && (r.firstBreakerOpen.Some? ==>
            exists o :: EarliestOpen(evs, o) && r.firstBreakerOpen == Some(Cite(o.ref, o.ts)))
    ensures
      var r, given := Analyze(raws, window, margin), Filter(PROTECTIONS, Parsed(raws));
      r.firstProtection.Some? ==>
        exists i: nat :: IsFirst(given, i) && r.firstProtection == Some(Cite(given[i].ref, given[i].ts))
    ensures
      var r, given := Analyze(raws, window, margin), Filter(OPENS, Parsed(raws));
      r.firstBreakerOpen.Some? ==>
        exists i: nat :: IsFirst(given, i) && r.firstBreakerOpen == Some(Cite(given[i].ref, given[i].ts))
  {
    hide Filter, Normalized, Parsed, IsFirst, Judge;
    HeadIsFirst(PROTECTIONS, raws);
    HeadIsFirst(OPENS, raws);
    FirstEventsAreEarliest(raws);
  }

  /** The heads of the sorted lists are the earliest events of their kind. */
  lemma FirstEventsAreEarliest(raws: seq<Raw>)
    ensures
      var protections, evs := Filter(PROTECTIONS, Normalized(raws)), Events(raws);
      && (protections == [] <==> !SomeProtection(evs))
      && (protections != [] ==> EarliestProtection(evs, protections[0]))
    ensures
      var opens, evs := Filter(OPENS, Normalized(raws)), Events(raws);
      && (opens == [] <==> !SomeOpen(evs))
      && (opens != [] ==> EarliestOpen(evs, opens[0]))
  {
    var es, evs := Normalized(raws), Events(raws);
    SortSorted(Parsed(raws));
    SortKeepsElements(Parsed(raws));
    FirstProtectionIsEarliest(es);
    if SomeOpen(evs) {
      FirstOpenIsEarliest(es);
      assert EarliestOpen(evs, Filter(OPENS, es)[0]);
    } else {
      Selected(OPENS, es);
    }
    if SomeProtection(evs) {
      assert EarliestProtection(evs, Filter(PROTECTIONS, es)[0]);
    }
  }

  lemma FirstProtectionIsEarliest(es: seq<Event>)
    requires Sorted(es)
    ensures Filter(PROTECTIONS, es) != [] <==> SomeProtection(Elements(es))
    ensures Filter(PROTECTIONS, es) != [] ==> EarliestProtection(Elements(es), Filter(PROTECTIONS, es)[0])
  {
    var protections := Filter(PROTECTIONS, es);
    ProtectionsFound(es);
    Selected(PROTECTIONS, es);
    SortedFilter(PROTECTIONS, es);
    assert forall q | q in Elements(es) && (q.kind.Trip? || q.kind.Pickup?) :: q in protections;
    assert protections != [] ==> protections[0] in protections;
  }

  // ----- the lists -----

  /** The lists show their first entries, at most 100 and 50 of them, and the counts are not cut. */
  lemma ListsAreCut(raws: seq<Raw>, window: int, margin: int)
    ensures
      var r, es := Analyze(raws, window, margin), Normalized(raws);
      var breakers, refs := FirstOpens(Filter(OPENS, es)), OutageRefs(es);
      && |r.timeline| == (if |es| <= 50 then |es| else 50) && r.timeline <= es
      && |r.breakersOpened| == (if |breakers| <= 100 then |breakers| else 100) && r.breakersOpened <= breakers
      && |r.affectedRefs| == (if |refs| <= 100 then |refs| else 100) && r.affectedRefs <= refs
      && r.breakerOpenCount == |set o | o in Events(raws) && o.kind.Open? :: o.ref|
  {
    SortKeepsElements(Parsed(raws));
    CountIsOfOpeners(Normalized(raws));
  }

  // ----- the detail -----

  /** The detail that comes with each branch. */
  lemma CascadeFits(remote: Option<Event>, protection: Option<Event>, trip: Option<Event>, open: Option<Event>,
                    count: nat, window: int, margin: int)
    requires remote.Some? ==> trip.Some?
    requires count > 0 <==> open.Some?
    requires protection.Some? || open.Some?
    ensures
      var j := Cascade(remote, protection, trip, open, count, window, margin);
      && Fits(j)
      && (j.detail.Spread? <==> j.verdict == BackupOperation && count > 1)
      && (j.detail.NoInterruption? <==> j.verdict == Insufficient)
  {
  }

  /** The detail speaks of what the verdict says. */
  predicate Fits(j: Judgement) {
    && (j.verdict == BreakerFailure <==> j.detail.OwnBreakerSilent?)
    && (j.verdict == BackupOperation <==> j.detail.Spread? || j.detail.Slow?)
    && (j.verdict == BreakerOperationNoProtection <==> j.detail.NoRelayEvent?)
    && (j.verdict == SelectiveTrip <==> j.detail.Cleared?)
    && (j.verdict == Insufficient <==> j.detail.NothingToCoordinate? || j.detail.NoInterruption?)
  }

  /**
  On raw input: each verdict comes with its own detail. Of the two for a backup operation the
  one about several breakers is given exactly if several opened, and of the two for insufficient
  records the one about inconclusive activity exactly if there was some.
  */
  lemma DetailFitsVerdict(raws: seq<Raw>, window: int, margin: int)
    ensures
      var j, evs := Analyze(raws, window, margin).judgement, Events(raws);
      && (j.verdict == BreakerFailure <==> j.detail.OwnBreakerSilent?)
      && (j.verdict == BackupOperation <==> j.detail.Spread? || j.detail.Slow?)
      && (j.verdict == BreakerOperationNoProtection <==> j.detail.NoRelayEvent?)
      && (j.verdict == SelectiveTrip <==> j.detail.Cleared?)
      && (j.verdict == Insufficient <==> j.detail.NothingToCoordinate? || j.detail.NoInterruption?)
      && (j.detail.Spread? <==> j.verdict == BackupOperation && SeveralOpeners(evs))
      && (j.detail.NoInterruption? <==> j.verdict == Insufficient && SomeProtection(evs))
  {
    hide Filter, FirstOpens, Cascade;
    var es := Normalized(raws);
    var trips, protections, opens := Filter(TRIPS, es), Filter(PROTECTIONS, es), Filter(OPENS, es);
    SortKeepsElements(Parsed(raws));
    SeveralOpenersCounted(es);
    ProtectionsFound(es);
    if protections != [] || opens != [] {
      CascadeFits(BackupOpen(trips, opens, Max(window, 0)), Head(protections), Head(trips), Head(opens),
                  |FirstOpens(opens)|, Max(window, 0), Max(margin, 0));
      VerdictsMean(raws, window, margin);
    }
  }

  /** The coordination status that comes with each verdict. */
  lemma StatusFitsVerdict(raws: seq<Raw>, window: int, margin: int)
    ensures
      var j, evs := Analyze(raws, window, margin).judgement, Events(raws);
      && (j.status == NoOperation <==> j.verdict == Insufficient && !SomeProtection(evs))
      && (j.status == Inconclusive <==> j.verdict == Insufficient && SomeProtection(evs))
      && (j.status == NoProtectionRecord <==> j.verdict == BreakerOperationNoProtection)
      && (j.status == FailedBreaker <==> j.verdict == BreakerFailure)
      && (j.status == NonSelective <==> j.verdict == BackupOperation)
      && (j.status == Selective <==> j.verdict == SelectiveTrip)
  {
    VerdictRefines(raws, window, margin);
  }
}
