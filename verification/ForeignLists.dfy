/** Linked lists of C strings that live in foreign memory. */
module ForeignLists {
  /** What an accessor call gives back. */
  datatype Reply<+T> = Given(value: T) | Raised

  /** What a walk collects; `str` of an unprintable one raises. */
  datatype Text = Plain(s: string) | Unprintable

  /** `getNext` of one element, and its data as the walk collects it; address 0 is NULL. */
  datatype Cell = Cell(next: Reply<nat>, data: Reply<Text>)

  datatype List = List(first: Reply<nat>, cells: nat -> Cell)

  predicate AtEnd(at: Reply<nat>) {
    at.Raised? || at.value == 0
  }

  /** The walk goes no further: NULL, or an accessor raises. */
  predicate Stops(cells: nat -> Cell, at: Reply<nat>) {
    AtEnd(at) || cells(at.value).data.Raised?
  }

  /** The elements whose data a walk from `at` reads until it stops. */
  ghost predicate IsSpine(cells: nat -> Cell, at: Reply<nat>, spine: seq<nat>)
    decreases |spine|
  {
    if Stops(cells, at) then spine == []
    else spine != [] && spine[0] == at.value && IsSpine(cells, cells(at.value).next, spine[1..])
  }

  /** Where a walk stands after `n` elements. */
  function Walk(cells: nat -> Cell, at: Reply<nat>, n: nat): Reply<nat>
    decreases n
  {
    if n == 0 || Stops(cells, at) then at else Walk(cells, cells(at.value).next, n - 1)
  }

  ghost predicate Ends(l: List) {
    exists spine :: IsSpine(l.cells, l.first, spine)
  }

  lemma {:induction false} SpineStops(cells: nat -> Cell, at: Reply<nat>, spine: seq<nat>)
    requires IsSpine(cells, at, spine)
    ensures Stops(cells, Walk(cells, at, |spine|))
    decreases |spine|
  {
    if !Stops(cells, at) {
      SpineStops(cells, cells(at.value).next, spine[1..]);
    }
  }

  lemma {:induction false} StopHasSpine(cells: nat -> Cell, at: Reply<nat>, n: nat) returns (spine: seq<nat>)
    requires Stops(cells, Walk(cells, at, n))
    ensures IsSpine(cells, at, spine)
    decreases n
  {
    if Stops(cells, at) {
      spine := [];
    } else {
      var rest := StopHasSpine(cells, cells(at.value).next, n - 1);
      spine := [at.value] + rest;
      assert spine[1..] == rest;
    }
  }

  predicate StopsAfter(l: List, n: nat) {
    Stops(l.cells, Walk(l.cells, l.first, n))
  }

  /** A list ends exactly if walking it terminates. */
  lemma EndsIff(l: List)
    ensures Ends(l) <==> exists n :: StopsAfter(l, n)
  {
    if Ends(l) {
      var spine :| IsSpine(l.cells, l.first, spine);
      SpineStops(l.cells, l.first, spine);
      assert StopsAfter(l, |spine|);
    }
    if n :| StopsAfter(l, n) {
      var spine := StopHasSpine(l.cells, l.first, n);
      assert IsSpine(l.cells, l.first, spine);
    }
  }

  /** The data of these elements, up to the first one whose data cannot be read. */
  function Readable(cells: nat -> Cell, spine: seq<nat>): (names: seq<Text>)
    ensures |names| <= |spine|
    ensures forall i | 0 <= i < |names| :: cells(spine[i]).data == Given(names[i])
    ensures |names| < |spine| ==> cells(spine[|names|]).data.Raised?
  {
    if spine == [] || cells(spine[0]).data.Raised? then []
    else [cells(spine[0]).data.value] + Readable(cells, spine[1..])
  }

  /** One step of a walk, and its end. */
  lemma SpineSteps(cells: nat -> Cell, at: Reply<nat>, spine: seq<nat>)
    requires IsSpine(cells, at, spine)
    ensures Stops(cells, at) ==> spine == [] && Readable(cells, spine) == []
    ensures !Stops(cells, at) ==>
      && spine != [] && IsSpine(cells, cells(at.value).next, spine[1..])
      && Readable(cells, spine) == [cells(at.value).data.value] + Readable(cells, spine[1..])
  {
  }

  lemma {:induction false} SpineIsUnique(cells: nat -> Cell, at: Reply<nat>, s: seq<nat>, t: seq<nat>)
    requires IsSpine(cells, at, s) && IsSpine(cells, at, t)
    ensures s == t
    decreases |s|
  {
    if !Stops(cells, at) {
      SpineIsUnique(cells, cells(at.value).next, s[1..], t[1..]);
    }
  }

  lemma {:induction false} SpineFrom(cells: nat -> Cell, at: Reply<nat>, spine: seq<nat>, i: nat)
    requires IsSpine(cells, at, spine) && i < |spine|
    ensures IsSpine(cells, Given(spine[i]), spine[i..])
    decreases i
  {
    if i > 0 {
      SpineFrom(cells, cells(at.value).next, spine[1..], i - 1);
      assert spine[1..][i - 1..] == spine[i..];
    }
  }

  /** A walk that ends visits no element twice: only acyclic lists end. */
  lemma SpineHasNoCycle(cells: nat -> Cell, at: Reply<nat>, spine: seq<nat>, i: nat, j: nat)
    requires IsSpine(cells, at, spine) && i < j < |spine|
    ensures spine[i] != spine[j]
  {
    SpineFrom(cells, at, spine, i);
    SpineFrom(cells, at, spine, j);
    if spine[i] == spine[j] {
      SpineIsUnique(cells, Given(spine[i]), spine[i..], spine[j..]);
    }
  }

  /** The names a walk of this list collects. */
  ghost function Names(l: List): seq<Text>
    requires Ends(l)
  {
    var spine :| IsSpine(l.cells, l.first, spine);
    Readable(l.cells, spine)
  }

  lemma NamesAre(l: List, spine: seq<nat>)
    requires IsSpine(l.cells, l.first, spine)
    ensures Names(l) == Readable(l.cells, spine)
  {
    var s :| IsSpine(l.cells, l.first, s) && Names(l) == Readable(l.cells, s);
    SpineIsUnique(l.cells, l.first, s, spine);
  }

  /** `[str(v) for v in out]` */
  function Rendered(texts: seq<Text>): (r: Reply<seq<string>>)
    ensures r.Raised? <==> Unprintable in texts
    ensures r.Given? ==> |r.value| == |texts| && forall i | 0 <= i < |texts| :: texts[i] == Plain(r.value[i])
  {
    if texts == [] then Given([])
    else match Rendered(texts[1..])
      case Given(rest) => if texts[0].Plain? then Given([texts[0].s] + rest) else Raised
      case Raised => Raised
  }

  // ----- how much of a list a walk collects -----

  /** All the elements of a list whose links can be followed to NULL. */
  ghost predicate IsChain(cells: nat -> Cell, at: Reply<nat>, chain: seq<nat>)
    decreases |chain|
  {
    if AtEnd(at) then at.Given? && chain == []
    else chain != [] && chain[0] == at.value && IsChain(cells, cells(at.value).next, chain[1..])
  }

  /** The walk gets to the NULL at the end of the list. */
  ghost predicate ReachesNull(l: List) {
    exists n :: NullAfter(l.cells, l.first, n)
  }

  predicate NullAfter(cells: nat -> Cell, at: Reply<nat>, n: nat) {
    Walk(cells, at, n) == Given(0)
  }

  /** If the walk gets to NULL, it went through all the elements and read each of them. */
  lemma {:induction false} NullMeansChain(cells: nat -> Cell, at: Reply<nat>, n: nat) returns (chain: seq<nat>)
    requires NullAfter(cells, at, n)
    ensures IsChain(cells, at, chain) && IsSpine(cells, at, chain)
    decreases n
  {
    if Stops(cells, at) {
      chain := [];
    } else {
      var rest := NullMeansChain(cells, cells(at.value).next, n - 1);
      chain := [at.value] + rest;
      assert chain[1..] == rest;
    }
  }

  /** Of all the elements the walk reads those before the first unreadable one. */
  lemma {:induction false} ChainIsRead(cells: nat -> Cell, at: Reply<nat>, chain: seq<nat>) returns (spine: seq<nat>)
    requires IsChain(cells, at, chain)
    ensures IsSpine(cells, at, spine) && spine <= chain
    ensures spine == chain <==> NullAfter(cells, at, |spine|)
    ensures |spine| < |chain| ==> cells(chain[|spine|]).data.Raised?
    decreases |chain|
  {
    if Stops(cells, at) {
      spine := [];
    } else {
      var rest := ChainIsRead(cells, cells(at.value).next, chain[1..]);
      spine := [at.value] + rest;
      assert spine[1..] == rest && chain == [chain[0]] + chain[1..];
    }
  }

  lemma {:induction false} AllReadable(cells: nat -> Cell, at: Reply<nat>, spine: seq<nat>)
    requires IsSpine(cells, at, spine)
    ensures |Readable(cells, spine)| == |spine|
    decreases |spine|
  {
    if spine != [] {
      AllReadable(cells, cells(at.value).next, spine[1..]);
    }
  }

  lemma {:induction false} NullIsFound(cells: nat -> Cell, at: Reply<nat>, n: nat, spine: seq<nat>)
    requires NullAfter(cells, at, n) && IsSpine(cells, at, spine)
    ensures NullAfter(cells, at, |spine|)
    decreases n
  {
    if !Stops(cells, at) {
      NullIsFound(cells, cells(at.value).next, n - 1, spine[1..]);
    }
  }

  /**
  The names are those of all the elements exactly if the walk reaches NULL. Otherwise
  they are cut short at the first element that cannot be read, without a word.
  */
  lemma WholeListIff(l: List, chain: seq<nat>)
    requires IsChain(l.cells, l.first, chain)
    ensures Ends(l) && |Names(l)| <= |chain|
    ensures forall i | 0 <= i < |Names(l)| :: l.cells(chain[i]).data == Given(Names(l)[i])
    ensures |Names(l)| == |chain| <==> ReachesNull(l)
    ensures |Names(l)| < |chain| ==> l.cells(chain[|Names(l)|]).data.Raised?
  {
    var spine := ChainIsRead(l.cells, l.first, chain);
    NamesAre(l, spine);
    AllReadable(l.cells, l.first, spine);
    if n :| NullAfter(l.cells, l.first, n) {
      NullIsFound(l.cells, l.first, n, spine);
    }
  }

  /** A walk that reaches NULL has gone through all the elements there are. */
  lemma ReachesNullMeansAll(l: List) returns (chain: seq<nat>)
    requires ReachesNull(l)
    ensures IsChain(l.cells, l.first, chain) && Ends(l) && |Names(l)| == |chain|
  {
    var n :| NullAfter(l.cells, l.first, n);
    chain := NullMeansChain(l.cells, l.first, n);
    WholeListIff(l, chain);
  }

  /** A walk that collects nothing stopped at once: the list is empty, or its first element cannot be read. */
  lemma NothingCollectedIff(l: List)
    requires Ends(l)
    ensures Names(l) == [] <==> Stops(l.cells, l.first)
    ensures l.first != Given(0) ==>
      (Names(l) == [] <==> l.first.Raised? || l.cells(l.first.value).data.Raised?)
  {
    var spine :| IsSpine(l.cells, l.first, spine);
    NamesAre(l, spine);
  }
}
