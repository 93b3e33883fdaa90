/** What the lists of opened breakers and affected refs contain. */
module Citations {
  import opened SoeEvents
  import opened Substation

  ghost predicate Opened(opens: seq<Event>, ref: string) {
    exists o | o in opens :: o.ref == ref
  }

  ghost predicate DistinctRefs(cites: seq<Cite>) {
    forall k, l | 0 <= k < l < |cites| :: cites[k].ref != cites[l].ref
  }

  ghost predicate Chronological(cites: seq<Cite>) {
    forall k, l | 0 <= k < l < |cites| :: cites[k].ts <= cites[l].ts
  }

  lemma InitAndLast(opens: seq<Event>, o: Event)
    requires opens != []
    ensures o in opens <==> o in opens[..|opens| - 1] || o == opens[|opens| - 1]
  {
    assert opens == opens[..|opens| - 1] + [opens[|opens| - 1]];
  }

  /** A ref is cited exactly if its breaker opened, and each citation is one of the opens. */
  lemma {:induction false} CitedMeansOpened(opens: seq<Event>)
    ensures forall ref :: Cites(FirstOpens(opens), ref) <==> Opened(opens, ref)
    ensures forall c | c in FirstOpens(opens) :: exists o | o in opens :: c == Cite(o.ref, o.ts)
    ensures DistinctRefs(FirstOpens(opens))
  {
    if opens != [] {
      var init, e := opens[..|opens| - 1], opens[|opens| - 1];
      CitedMeansOpened(init);
      forall ref ensures Cites(FirstOpens(opens), ref) <==> Opened(opens, ref) {
        forall o ensures o in opens <==> o in init || o == e {
          InitAndLast(opens, o);
        }
        assert Opened(opens, ref) <==> Opened(init, ref) || e.ref == ref;
        if Cites(FirstOpens(init), ref) {
          var c :| c in FirstOpens(init) && c.ref == ref;
          assert c in FirstOpens(opens);
        }
        if e.ref == ref && !Cites(FirstOpens(init), ref) {
          assert Cite(e.ref, e.ts) in FirstOpens(opens);
        }
      }
      forall c | c in FirstOpens(opens) ensures exists o | o in opens :: c == Cite(o.ref, o.ts) {
        if c in FirstOpens(init) {
          var o :| o in init && c == Cite(o.ref, o.ts);
          InitAndLast(opens, o);
        } else {
          InitAndLast(opens, e);
        }
      }
    }
  }

  /** The citations are in time order. */
  lemma {:induction false} CitedInOrder(opens: seq<Event>)
    requires Sorted(opens)
    ensures Chronological(FirstOpens(opens))
  {
    if opens != [] {
      var init, e := opens[..|opens| - 1], opens[|opens| - 1];
      CitedInOrder(init);
      CitedMeansOpened(init);
      forall c | c in FirstOpens(init) ensures c.ts <= e.ts {
        var o :| o in init && c == Cite(o.ref, o.ts);
      }
    }
  }

  /** The ref of every open is cited with a time no later than that open's. */
  lemma {:induction false} CitedIsEarliest(opens: seq<Event>, o: Event) returns (c: Cite)
    requires Sorted(opens) && o in opens
    ensures c in FirstOpens(opens) && c.ref == o.ref && c.ts <= o.ts
  {
    var init, e := opens[..|opens| - 1], opens[|opens| - 1];
    InitAndLast(opens, o);
    if o in init {
      c := CitedIsEarliest(init, o);
    } else if Cites(FirstOpens(init), e.ref) {
      c :| c in FirstOpens(init) && c.ref == e.ref;
      CitedMeansOpened(init);
      var p :| p in init && c == Cite(p.ref, p.ts);
    } else {
      c := Cite(e.ref, e.ts);
    }
  }

  /** Refs are cited in the order in which they come up. */
  lemma {:induction false} CitationsGrow(opens: seq<Event>, i: nat)
    requires i <= |opens|
    ensures FirstOpens(opens[..i]) <= FirstOpens(opens)
  {
    if i == |opens| {
      assert opens[..i] == opens;
    } else {
      var init := opens[..|opens| - 1];
      CitationsGrow(init, i);
      assert init[..i] == opens[..i];
    }
  }

  /**
  One citation per distinct opening ref, with that ref's earliest open time, in
  chronological order; the count is the number of such refs.
  */
  lemma CitationsAreExact(opens: seq<Event>)
    requires Sorted(opens)
    ensures
      var cites := FirstOpens(opens);
      && DistinctRefs(cites) && Chronological(cites)
      && (forall o | o in opens :: exists c | c in cites :: c.ref == o.ref && c.ts <= o.ts)
      && (forall c | c in cites :: exists o | o in opens :: c == Cite(o.ref, o.ts))
      && |cites| == |set o | o in opens :: o.ref|
  {
    CitedMeansOpened(opens);
    CitedInOrder(opens);
    forall o | o in opens ensures exists c | c in FirstOpens(opens) :: c.ref == o.ref && c.ts <= o.ts {
      var c := CitedIsEarliest(opens, o);
    }
    CountIsOfDistinctRefs(opens);
  }

  lemma {:induction false} OutageRefsAreExact(es: seq<Event>)
    ensures forall r ::
      r in OutageRefs(es) <==>
        exists e | e in es :: e.ref == r && (e.kind.Open? || e.kind.Lockout? || e.kind.Undervoltage?)
    ensures forall k, l | 0 <= k < l < |OutageRefs(es)| :: OutageRefs(es)[k] != OutageRefs(es)[l]
  {
    if es != [] {
      var n := |es| - 1;
      OutageRefsAreExact(es[..n]);
      assert es == es[..n] + [es[n]];
      forall r ensures r in OutageRefs(es) <==> exists e | e in es :: e.ref == r && LosesSupply(e.kind) {
        if e :| e in es && e.ref == r && LosesSupply(e.kind) {
          assert e in es[..n] || e == es[n];
        }
      }
    }
  }

  /** They come in the order in which they first come up. */
  lemma {:induction false} OutageRefsGrow(es: seq<Event>, i: nat)
    requires i <= |es|
    ensures OutageRefs(es[..i]) <= OutageRefs(es)
  {
    if i == |es| {
      assert es[..i] == es;
    } else {
      var init := es[..|es| - 1];
      OutageRefsGrow(init, i);
      assert init[..i] == es[..i];
    }
  }

  /** Every breaker that opened is among the refs that lost supply. */
  lemma BreakersAreAffected(es: seq<Event>)
    ensures forall c | c in FirstOpens(Filter(OPENS, es)) :: c.ref in OutageRefs(es)
  {
    var opens := Filter(OPENS, es);
    CitedMeansOpened(opens);
    OutageRefsAreExact(es);
    forall c | c in FirstOpens(opens) ensures c.ref in OutageRefs(es) {
      var o :| o in opens && c == Cite(o.ref, o.ts);
      FilterIn(OPENS, es, o);
    }
  }

  lemma CountIsOfDistinctRefs(opens: seq<Event>)
    ensures |FirstOpens(opens)| == |set o | o in opens :: o.ref|
  {
    var cites := FirstOpens(opens);
    CitedMeansOpened(opens);
    CountDistinct(cites);
    var refs := set o | o in opens :: o.ref;
    forall r ensures r in refs <==> Cites(cites, r) {
      assert Opened(opens, r) <==> r in refs;
    }
    assert refs == set c | c in cites :: c.ref;
  }

  lemma {:induction false} CountDistinct(cites: seq<Cite>)
    requires DistinctRefs(cites)
    ensures |cites| == |set c | c in cites :: c.ref|
  {
    var refs := set c | c in cites :: c.ref;
    if cites != [] {
      var n := |cites| - 1;
      CountDistinct(cites[..n]);
      var init := set c | c in cites[..n] :: c.ref;
      assert refs == init + {cites[n].ref};
      assert cites[n].ref !in init;
    }
  }
}
