/** Which entries of the input do not matter to the analysis. */
module Irrelevance {
  import opened Options
  import opened SoeEvents
  import opened Substation

  type Mask = seq<bool>

  /** The entries that the mask lets through. */
  function Chosen(raws: seq<Raw>, mask: Mask): (kept: seq<Raw>)
    requires |mask| == |raws|
    ensures |kept| <= |raws|
  {
    if raws == [] then []
    else (if mask[0] then [raws[0]] else []) + Chosen(raws[1..], mask[1..])
  }

  lemma {:induction false} ChosenIn(raws: seq<Raw>, mask: Mask, r: Raw)
    requires |mask| == |raws|
    ensures r in Chosen(raws, mask) <==> exists i :: 0 <= i < |raws| && mask[i] && raws[i] == r
  {
    if raws != [] {
      ChosenIn(raws[1..], mask[1..], r);
      if r in Chosen(raws[1..], mask[1..]) {
        var i :| 0 <= i < |raws| - 1 && mask[1..][i] && raws[1..][i] == r;
        assert mask[i + 1] && raws[i + 1] == r;
      }
      if i :| 0 < i < |raws| && mask[i] && raws[i] == r {
        assert mask[1..][i - 1] && raws[1..][i - 1] == r;
      }
    }
  }

  // ----- unusable entries -----

  lemma {:induction false} ChosenKeep(raws: seq<Raw>, mask: Mask, anyAware: bool)
    requires |mask| == |raws|
    requires forall i | 0 <= i < |raws| && !mask[i] :: !Keeps(raws[i], anyAware)
    ensures Keep(raws, anyAware) == Keep(Chosen(raws, mask), anyAware)
  {
    if raws != [] {
      ChosenKeep(raws[1..], mask[1..], anyAware);
      var rest := Chosen(raws[1..], mask[1..]);
      assert mask[0] ==> ([raws[0]] + rest)[1..] == rest;
      assert !mask[0] ==> [] + rest == rest;
    }
  }

  /**
  Entries without a usable time, and naive ones next to aware ones, are only counted,
  however many there are and wherever they stand.
  */
  lemma UnusableEntriesAreOnlyCounted(raws: seq<Raw>, mask: Mask, window: int, margin: int)
    requires |mask| == |raws|
    requires forall i | 0 <= i < |raws| && !mask[i] :: !Keeps(raws[i], AnyAware(raws))
    ensures
      var kept := Chosen(raws, mask);
      var without := Analyze(kept, window, margin);
      Analyze(raws, window, margin) == without.(ignored := without.ignored + |raws| - |kept|)
  {
    var kept := Chosen(raws, mask);
    forall r ensures r in kept <==> exists i :: 0 <= i < |raws| && mask[i] && raws[i] == r {
      ChosenIn(raws, mask, r);
    }
    if r :| r in raws && IsAware(r) {
      var i :| 0 <= i < |raws| && raws[i] == r;
      assert mask[i];
    }
    assert AnyAware(kept) == AnyAware(raws);
    ChosenKeep(raws, mask, AnyAware(raws));
  }

  // ----- irrelevant entries -----

  predicate Bystander(k: Kind) {
    k.Close? || k.Lockout? || k.Undervoltage? || k.Other?
  }

  /** An entry that cannot change the verdict, next to a first trip if there is one. */
  predicate Irrelevant(r: Raw, anyAware: bool, first: Option<Event>) {
    || !Keeps(r, anyAware)
    || Bystander(r.kind)
    || (first.Some? && (r.kind.Pickup? || (r.kind.Trip? && first.value.ts < ToEvent(r).ts)))
  }

  function FirstTripOf(raws: seq<Raw>): Option<Event> {
    Head(Filter(TRIPS, Normalized(raws)))
  }

  /** What is left out does not pass the test, and whether the others stay is the same without it. */
  predicate Unselected(p: Test, raws: seq<Raw>, mask: Mask, before: bool, after: bool)
    requires |mask| == |raws|
  {
    && (forall i | 0 <= i < |raws| && mask[i] :: Keeps(raws[i], before) == Keeps(raws[i], after))
    && (forall i | 0 <= i < |raws| && !mask[i] && Keeps(raws[i], before) :: !p(ToEvent(raws[i])))
  }

  lemma {:induction false} ChosenFilter(p: Test, raws: seq<Raw>, mask: Mask, before: bool, after: bool)
    requires |mask| == |raws| && Unselected(p, raws, mask, before, after)
    ensures Filter(p, Keep(raws, before)) == Filter(p, Keep(Chosen(raws, mask), after))
  {
    if raws != [] {
      ChosenFilter(p, raws[1..], mask[1..], before, after);
      FilterKeepFirst(p, raws[0], raws[1..], before);
      var rest := Chosen(raws[1..], mask[1..]);
      FilterKeepFirst(p, raws[0], rest, after);
      assert raws == [raws[0]] + raws[1..];
      assert Chosen(raws, mask) == if mask[0] then [raws[0]] + rest else rest;
    }
  }

  /** The first entry adds its event if it stays and passes the test. */
  lemma FilterKeepFirst(p: Test, r: Raw, rest: seq<Raw>, anyAware: bool)
    ensures Filter(p, Keep([r] + rest, anyAware)) ==
      (if Keeps(r, anyAware) && p(ToEvent(r)) then [ToEvent(r)] else []) + Filter(p, Keep(rest, anyAware))
  {
    assert ([r] + rest)[1..] == rest;
    if Keeps(r, anyAware) {
      assert ([ToEvent(r)] + Keep(rest, anyAware))[1..] == Keep(rest, anyAware);
    }
  }

  /** The events that pass a test which nothing left out passes are the same. */
  lemma SameSelection(p: Test, raws: seq<Raw>, mask: Mask)
    requires |mask| == |raws| && Unselected(p, raws, mask, AnyAware(raws), AnyAware(Chosen(raws, mask)))
    ensures Filter(p, Normalized(raws)) == Filter(p, Normalized(Chosen(raws, mask)))
  {
    ChosenFilter(p, raws, mask, AnyAware(raws), AnyAware(Chosen(raws, mask)));
    FilterSort(p, Parsed(raws));
    FilterSort(p, Parsed(Chosen(raws, mask)));
  }

  function TripsBy(t: int): Test {
    (e: Event) => e.kind.Trip? && e.ts <= t
  }

  /** The first of the trips up to some time is the first trip of all. */
  lemma {:induction false} FirstOfEarlyTrips(es: seq<Event>, t: int)
    requires Sorted(es) && Filter(TripsBy(t), es) != []
    ensures Filter(TRIPS, es) != [] && Filter(TRIPS, es)[0] == Filter(TripsBy(t), es)[0]
  {
    if es[0].kind.Trip? && t < es[0].ts {
      FilterNone(TripsBy(t), es);
    } else if !es[0].kind.Trip? {
      FirstOfEarlyTrips(es[1..], t);
    }
  }

  lemma {:induction false} FilterNonEmpty(p: Test, q: Test, es: seq<Event>)
    requires Filter(p, es) != [] && forall e: Event :: p(e) ==> q(e)
    ensures Filter(q, es) != []
  {
    if !p(es[0]) {
      FilterNonEmpty(p, q, es[1..]);
    }
  }

  /** Next to a trip, only the first trip matters, not the other protection events. */
  lemma OnlyFirstTripMatters(p: seq<Event>, q: seq<Event>, s: seq<Event>, t: seq<Event>,
                             opens: seq<Event>, count: nat, window: int, margin: int)
    requires p != [] && q != [] && s != [] && t != [] && s[0] == t[0]
    requires count > 0 ==> opens != []
    ensures ClassifyVerdict(p, s, opens, count, window, margin) == ClassifyVerdict(q, t, opens, count, window, margin)
  {
  }

  /** The judgement looks at nothing but the protection events, the trips and the opens. */
  lemma JudgedTheSame(es: seq<Event>, fs: seq<Event>, window: int, margin: int)
    requires Filter(OPENS, es) == Filter(OPENS, fs) && Filter(TRIPS, es) == Filter(TRIPS, fs)
    requires Filter(PROTECTIONS, es) == Filter(PROTECTIONS, fs)
    ensures Judge(es, window, margin) == Judge(fs, window, margin)
  {
  }

  /** With the same opens and the same first trip, two inputs are judged alike. */
  lemma JudgedAlike(raws: seq<Raw>, kept: seq<Raw>, window: int, margin: int)
    requires Filter(OPENS, Normalized(raws)) == Filter(OPENS, Normalized(kept))
    requires FirstTripOf(raws).Some? && FirstTripOf(raws) == FirstTripOf(kept)
    ensures Judge(Normalized(raws), window, margin) == Judge(Normalized(kept), window, margin)
  {
    hide Normalized, Filter;
    var es, fs := Normalized(raws), Normalized(kept);
    FilterNonEmpty(TRIPS, PROTECTIONS, es);
    FilterNonEmpty(TRIPS, PROTECTIONS, fs);
    var opens := Filter(OPENS, es);
    OnlyFirstTripMatters(Filter(PROTECTIONS, es), Filter(PROTECTIONS, fs), Filter(TRIPS, es), Filter(TRIPS, fs),
                         opens, |FirstOpens(opens)|, Max(window, 0), Max(margin, 0));
  }

  lemma SameFirstTrip(raws: seq<Raw>, mask: Mask, trip: Event)
    requires |mask| == |raws| && FirstTripOf(Chosen(raws, mask)) == Some(trip)
    requires Unselected(TripsBy(trip.ts), raws, mask, AnyAware(raws), AnyAware(Chosen(raws, mask)))
    ensures FirstTripOf(raws) == Some(trip)
  {
    var es, fs := Normalized(raws), Normalized(Chosen(raws, mask));
    SameSelection(TripsBy(trip.ts), raws, mask);
    SortSorted(Parsed(raws));
    SortSorted(Parsed(Chosen(raws, mask)));
    FilterIn(TRIPS, fs, trip);
    FilterIn(TripsBy(trip.ts), fs, trip);
    FirstOfEarlyTrips(es, trip.ts);
    FirstOfEarlyTrips(fs, trip.ts);
  }

  /**
  Entries never matter to verdict, status and detail, however many there are and wherever
  they stand, if they are closes, lockouts, undervoltages or other events, or, next to a
  trip, pickups or trips later than the first one. All that is asked is that leaving them
  out does not change which other entries stay.
  */
  lemma IrrelevantEntriesDoNotMatter(raws: seq<Raw>, mask: Mask, window: int, margin: int)
    requires |mask| == |raws|
    requires
      var kept := Chosen(raws, mask);
      && (forall i | 0 <= i < |raws| && mask[i] :: Keeps(raws[i], AnyAware(raws)) == Keeps(raws[i], AnyAware(kept)))
      && (forall i | 0 <= i < |raws| && !mask[i] :: Irrelevant(raws[i], AnyAware(raws), FirstTripOf(kept)))
    ensures Analyze(raws, window, margin).judgement == Analyze(Chosen(raws, mask), window, margin).judgement
  {
    hide Chosen, AnyAware, Filter, Normalized, Judge, FirstTripOf;
    var kept := Chosen(raws, mask);
    SameSelection(OPENS, raws, mask);
    if FirstTripOf(kept).None? {
      SameSelection(TRIPS, raws, mask);
      SameSelection(PROTECTIONS, raws, mask);
      JudgedTheSame(Normalized(raws), Normalized(kept), window, margin);
    } else {
      SameFirstTrip(raws, mask, FirstTripOf(kept).value);
      JudgedAlike(raws, kept, window, margin);
    }
  }
}
