/** Sequence-of-events entries and the stable sort by time that orders them. */
module SoeEvents {
  datatype Kind = Pickup | Trip | Open | Close | Lockout | Undervoltage | Other

  /** A normalised entry; times are microseconds. */
  datatype Event = Event(ref: string, ts: int, kind: Kind)

  type Test = Event -> bool

  function Filter(p: Test, es: seq<Event>): (r: seq<Event>)
    ensures |r| <= |es|
  {
    if es == [] then []
    else if p(es[0]) then [es[0]] + Filter(p, es[1..])
    else Filter(p, es[1..])
  }

  lemma {:induction false} FilterIn(p: Test, es: seq<Event>, e: Event)
    ensures e in Filter(p, es) <==> e in es && p(e)
  {
    if es != [] {
      FilterIn(p, es[1..], e);
      assert e in es <==> e == es[0] || e in es[1..];
    }
  }

  lemma {:induction false} FilterNone(p: Test, es: seq<Event>)
    requires forall e | e in es :: !p(e)
    ensures Filter(p, es) == []
  {
    if es != [] {
      FilterNone(p, es[1..]);
    }
  }

  lemma {:induction false} FilterAppend(p: Test, a: seq<Event>, b: seq<Event>)
    ensures Filter(p, a + b) == Filter(p, a) + Filter(p, b)
  {
    if a == [] {
      assert a + b == b;
    } else {
      assert (a + b)[1..] == a[1..] + b;
      FilterAppend(p, a[1..], b);
    }
  }

  ghost predicate Sorted(es: seq<Event>) {
    forall i, j | 0 <= i < j < |es| :: es[i].ts <= es[j].ts
  }

  /** Before the first element that is not earlier. */
  function Insert(e: Event, es: seq<Event>): (r: seq<Event>)
    ensures |r| == |es| + 1
  {
    if es == [] then [e]
    else if e.ts <= es[0].ts then [e] + es
    else [es[0]] + Insert(e, es[1..])
  }

  /** `list.sort(key=...)`: ascending, and equal keys keep their order. */
  function Sort(es: seq<Event>): (r: seq<Event>)
    ensures |r| == |es|
  {
    if es == [] then [] else Insert(es[0], Sort(es[1..]))
  }

  lemma {:induction false} InsertSorted(e: Event, es: seq<Event>)
    requires Sorted(es)
    ensures Sorted(Insert(e, es))
    ensures Insert(e, es)[0].ts == (if es == [] || e.ts <= es[0].ts then e.ts else es[0].ts)
  {
    if es != [] && e.ts > es[0].ts {
      InsertSorted(e, es[1..]);
    }
  }

  lemma {:induction false} SortSorted(es: seq<Event>)
    ensures Sorted(Sort(es))
  {
    if es != [] {
      SortSorted(es[1..]);
      InsertSorted(es[0], Sort(es[1..]));
    }
  }

  lemma {:induction false} FilterHead(p: Test, es: seq<Event>)
    requires Sorted(es) && Filter(p, es) != []
    ensures es[0].ts <= Filter(p, es)[0].ts
  {
    if !p(es[0]) {
      FilterHead(p, es[1..]);
    }
  }

  lemma {:induction false} FilterInsert(p: Test, e: Event, es: seq<Event>)
    requires Sorted(es)
    ensures Filter(p, Insert(e, es)) == if p(e) then Insert(e, Filter(p, es)) else Filter(p, es)
  {
    if es == [] {
    } else if e.ts <= es[0].ts {
      assert ([e] + es)[1..] == es;
      if Filter(p, es) != [] {
        FilterHead(p, es);
      }
    } else {
      FilterInsert(p, e, es[1..]);
      assert Insert(e, es)[1..] == Insert(e, es[1..]);
      if p(es[0]) {
        assert Filter(p, es)[1..] == Filter(p, es[1..]);
      }
    }
  }

  /** Stability: whatever one selects, selecting before or after sorting is the same. */
  lemma {:induction false} FilterSort(p: Test, es: seq<Event>)
    ensures Filter(p, Sort(es)) == Sort(Filter(p, es))
  {
    if es != [] {
      FilterSort(p, es[1..]);
      SortSorted(es[1..]);
      FilterInsert(p, es[0], Sort(es[1..]));
      if p(es[0]) {
        assert Filter(p, es)[1..] == Filter(p, es[1..]);
      }
    }
  }

  lemma {:induction false} SortOfSorted(es: seq<Event>)
    requires Sorted(es)
    ensures Sort(es) == es
  {
    if es != [] {
      SortOfSorted(es[1..]);
    }
  }

  function At(t: int): Test {
    (e: Event) => e.ts == t
  }

  /** `out` is ascending, and at every instant it has what `es` has, in the same order. */
  ghost predicate IsStableSort(out: seq<Event>, es: seq<Event>) {
    Sorted(out) && forall t :: Filter(At(t), out) == Filter(At(t), es)
  }

  lemma {:induction false} AllAt(t: int, es: seq<Event>)
    ensures Sorted(Filter(At(t), es))
    ensures forall i | 0 <= i < |Filter(At(t), es)| :: Filter(At(t), es)[i].ts == t
  {
    if es != [] {
      AllAt(t, es[1..]);
    }
  }

  lemma SortIsStable(es: seq<Event>)
    ensures IsStableSort(Sort(es), es)
  {
    SortSorted(es);
    forall t: int ensures Filter(At(t), Sort(es)) == Filter(At(t), es) {
      FilterSort(At(t), es);
      AllAt(t, es);
      SortOfSorted(Filter(At(t), es));
    }
  }

  lemma FilterTail(t: int, es: seq<Event>)
    requires es != []
    ensures Filter(At(t), es[1..]) == (if es[0].ts == t then Filter(At(t), es)[1..] else Filter(At(t), es))
  {
  }

  /** Any stable sort gives the same sequence, so the algorithm does not matter. */
  lemma {:induction false} StableSortIsUnique(a: seq<Event>, b: seq<Event>)
    requires Sorted(a) && Sorted(b)
    requires forall t: int :: Filter(At(t), a) == Filter(At(t), b)
    ensures a == b
  {
    if a != [] {
      FilterIn(At(a[0].ts), a, a[0]);
      FilterIn(At(a[0].ts), b, a[0]);
    }
    if b != [] {
      FilterIn(At(b[0].ts), b, b[0]);
      FilterIn(At(b[0].ts), a, b[0]);
    }
    if a != [] && b != [] {
      assert a[0].ts == b[0].ts;
      assert Filter(At(a[0].ts), a)[0] == a[0] && Filter(At(b[0].ts), b)[0] == b[0];
      forall t: int ensures Filter(At(t), a[1..]) == Filter(At(t), b[1..]) {
        FilterTail(t, a);
        FilterTail(t, b);
      }
      StableSortIsUnique(a[1..], b[1..]);
      assert a == [a[0]] + a[1..] && b == [b[0]] + b[1..];
    }
  }

  ghost predicate DistinctTimes(es: seq<Event>) {
    forall i, j | 0 <= i < |es| && 0 <= j < |es| && i != j :: es[i].ts != es[j].ts
  }

  lemma SameHead(a: seq<Event>, b: seq<Event>)
    requires Sorted(a) && Sorted(b) && DistinctTimes(a) && a != []
    requires multiset(a) == multiset(b)
    ensures b != [] && a[0] == b[0]
  {
    assert a[0] in multiset(a);
    assert a[0] in b;
    assert b[0] in multiset(b);
    assert b[0] in a;
  }

  lemma TailMultiset(es: seq<Event>)
    requires es != []
    ensures multiset(es[1..]) == multiset(es) - multiset{es[0]}
  {
    assert es == [es[0]] + es[1..];
  }

  /** With no two events at the same instant, sorting forgets the input order. */
  lemma {:induction false} SortedDistinctUnique(a: seq<Event>, b: seq<Event>)
    requires Sorted(a) && Sorted(b) && DistinctTimes(a)
    requires multiset(a) == multiset(b)
    ensures a == b
  {
    if a == [] {
      assert |multiset(b)| == 0;
    } else {
      SameHead(a, b);
      TailMultiset(a);
      TailMultiset(b);
      SortedDistinctUnique(a[1..], b[1..]);
      assert a == [a[0]] + a[1..] && b == [b[0]] + b[1..];
    }
  }

  lemma {:induction false} InsertMultiset(e: Event, es: seq<Event>)
    ensures multiset(Insert(e, es)) == multiset{e} + multiset(es)
  {
    if es != [] && e.ts > es[0].ts {
      var rest := Insert(e, es[1..]);
      InsertMultiset(e, es[1..]);
      assert es == [es[0]] + es[1..];
      assert multiset([es[0]] + rest) == multiset{es[0]} + multiset(rest);
    }
  }

  lemma {:induction false} SortMultiset(es: seq<Event>)
    ensures multiset(Sort(es)) == multiset(es)
  {
    if es != [] {
      SortMultiset(es[1..]);
      InsertMultiset(es[0], Sort(es[1..]));
      assert es == [es[0]] + es[1..];
    }
  }

  lemma SortIn(es: seq<Event>, e: Event)
    ensures e in Sort(es) <==> e in es
  {
    SortMultiset(es);
    assert e in Sort(es) <==> e in multiset(Sort(es));
    assert e in es <==> e in multiset(es);
  }

  /** The earliest of these events, the first one of them if several are. */
  ghost predicate IsFirst(es: seq<Event>, i: nat) {
    && i < |es|
    && (forall j | 0 <= j < i :: es[i].ts < es[j].ts)
    && (forall j | i < j < |es| :: es[i].ts <= es[j].ts)
  }

  lemma {:induction false} SortHead(es: seq<Event>, i: nat)
    requires IsFirst(es, i)
    ensures Sort(es)[0] == es[i]
  {
    var rest := Sort(es[1..]);
    if i == 0 {
      if rest != [] {
        SortIn(es[1..], rest[0]);
      }
    } else {
      SortHead(es[1..], i - 1);
    }
  }
}
