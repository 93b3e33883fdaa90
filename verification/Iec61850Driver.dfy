/**
The IEC 61850 adapter over a binding it cannot trust: any helper may be missing,
any call may raise or return any code, and payloads are foreign memory that has to
be freed. What the binding does is an oracle indexed by the number of the call.
*/
module Iec61850Driver {
  import opened Options
  import opened Payloads
  import opened ForeignLists

  /** An IedClientError as Python sees it. */
  datatype ErrorCode = NoCode | Code(n: int) | Odd

  /** A value a model call can return. */
  datatype Return =
    | RaisesError
    | BareInt(n: int)
    | Items(size: nat, first: bool, last: ErrorCode)  // list or tuple; whether item 0 is a payload
    | Object                                          // anything else
    | Nothing                                         // None

  const CALL_FAILED := -1

  /** Whether there is a payload, and the error code. */
  function Unwrap(r: Return): (bool, ErrorCode) {
    match r
    case RaisesError => (false, Code(CALL_FAILED))
    case Items(size, first, last) =>
      if size >= 2 then (first, last) else if size == 1 then (first, Code(0)) else (false, Code(0))
    case BareInt(n) => (false, Code(n))
    case Object => (true, Code(0))
    case Nothing => (false, Code(0))
  }

  predicate Succeeded(e: ErrorCode) {
    e == Code(0) || e == NoCode
  }

  // ----- decoding by type -----

  datatype TypeName = MmsFloat | MmsInteger | MmsUnsigned | MmsBoolean | MmsVisibleString | MmsString
                    | MmsDataAccessError

  datatype Row = Row(name: TypeName, accessor: Attr)

  const ACCESSORS: seq<Row> := [
    Row(MmsFloat, ToFloat),
    Row(MmsInteger, ToInt64),
    Row(MmsUnsigned, ToUint32),
    Row(MmsBoolean, GetBoolean),
    Row(MmsVisibleString, ToText),
    Row(MmsString, ToText)
  ]

  /** A dict literal: of the rows with the same key the last one counts. */
  function LookUp(rows: seq<Row>, codes: map<TypeName, int>, t: int): Option<Attr> {
    if rows == [] then None
    else
      var last := rows[|rows| - 1];
      if last.name in codes && codes[last.name] == t then Some(last.accessor)
      else LookUp(rows[..|rows| - 1], codes, t)
  }

  predicate Numeric(a: Attr) {
    a.ToFloat? || a.ToInt64? || a.ToUint32?
  }

  /** Each type is read with the accessor listed for it. */
  ghost predicate Faithful(rows: seq<Row>, codes: map<TypeName, int>) {
    forall i | 0 <= i < |rows| && rows[i].name in codes ::
      LookUp(rows, codes, codes[rows[i].name]) == Some(rows[i].accessor)
  }

  /** Types that share a code share an accessor. */
  predicate CodesTellAccessors(rows: seq<Row>, codes: map<TypeName, int>) {
    forall i, j | 0 <= i < j < |rows| && rows[i].name in codes && rows[j].name in codes ::
      codes[rows[i].name] == codes[rows[j].name] ==> rows[i].accessor == rows[j].accessor
  }

  /** What is found is the last row with that code; nothing is found if there is none. */
  lemma {:induction false} LookUpFindsLast(rows: seq<Row>, codes: map<TypeName, int>, t: int)
    ensures LookUp(rows, codes, t).Some? ==> exists i ::
      && 0 <= i < |rows| && rows[i].name in codes && codes[rows[i].name] == t
      && LookUp(rows, codes, t) == Some(rows[i].accessor)
      && (forall j | i < j < |rows| :: rows[j].name in codes ==> codes[rows[j].name] != t)
    ensures LookUp(rows, codes, t).None? ==>
      forall i | 0 <= i < |rows| :: rows[i].name in codes ==> codes[rows[i].name] != t
  {
    if rows != [] {
      var n := |rows| - 1;
      LookUpFindsLast(rows[..n], codes, t);
      assert forall i | 0 <= i < n :: rows[i] == rows[..n][i];
    }
  }

  /** Decoding is faithful exactly when the binding's type codes tell the accessors apart. */
  lemma FaithfulIff(rows: seq<Row>, codes: map<TypeName, int>)
    ensures Faithful(rows, codes) <==> CodesTellAccessors(rows, codes)
  {
    forall i | 0 <= i < |rows| && rows[i].name in codes {
      LookUpFindsLast(rows, codes, codes[rows[i].name]);
    }
  }

  /** Whatever the codes, a numeric accessor is picked only for the code of its own type. */
  lemma NumericMeansReported(codes: map<TypeName, int>, t: int, a: Attr)
    requires LookUp(ACCESSORS, codes, t) == Some(a)
    ensures a.ToFloat? ==> MmsFloat in codes && codes[MmsFloat] == t
    ensures a.ToInt64? ==> MmsInteger in codes && codes[MmsInteger] == t
    ensures a.ToUint32? ==> MmsUnsigned in codes && codes[MmsUnsigned] == t
  {
    LookUpFindsLast(ACCESSORS, codes, t);
  }

  /** With a code of its own for each type, every type is read with its own accessor, and no other type is. */
  lemma AccessorsMean(codes: map<TypeName, int>, t: int)
    requires forall n, m | n in codes && m in codes && codes[n] == codes[m] :: n == m
    ensures MmsFloat in codes && codes[MmsFloat] == t ==> LookUp(ACCESSORS, codes, t) == Some(ToFloat)
    ensures MmsInteger in codes && codes[MmsInteger] == t ==> LookUp(ACCESSORS, codes, t) == Some(ToInt64)
    ensures MmsUnsigned in codes && codes[MmsUnsigned] == t ==> LookUp(ACCESSORS, codes, t) == Some(ToUint32)
    ensures MmsBoolean in codes && codes[MmsBoolean] == t ==> LookUp(ACCESSORS, codes, t) == Some(GetBoolean)
    ensures MmsVisibleString in codes && codes[MmsVisibleString] == t ==> LookUp(ACCESSORS, codes, t) == Some(ToText)
    ensures MmsString in codes && codes[MmsString] == t ==> LookUp(ACCESSORS, codes, t) == Some(ToText)
    ensures (forall n | n in codes && codes[n] == t :: n == MmsDataAccessError) ==> LookUp(ACCESSORS, codes, t) == None
  {
    LookUpFindsLast(ACCESSORS, codes, t);
    forall i | 0 <= i < |ACCESSORS| && ACCESSORS[i].name in codes && codes[ACCESSORS[i].name] == t
      ensures LookUp(ACCESSORS, codes, t) == Some(ACCESSORS[i].accessor)
    {
    }
    assert ACCESSORS[0] == Row(MmsFloat, ToFloat) && ACCESSORS[1] == Row(MmsInteger, ToInt64);
    assert ACCESSORS[2] == Row(MmsUnsigned, ToUint32) && ACCESSORS[3] == Row(MmsBoolean, GetBoolean);
    assert ACCESSORS[4] == Row(MmsVisibleString, ToText) && ACCESSORS[5] == Row(MmsString, ToText);
  }

  // ----- the binding -----

  datatype Answer = NoneAnswer | EmptyText | Value(token: nat)  // None, "", or something else

  /** What `getType` gives back; an unhashable reply cannot be looked up in a dict. */
  datatype TypeReply = TypeCode(n: int) | Unhashable

  /** A decoded MmsValue. */
  datatype Decoded =
    | Scalar(accessor: Attr, answer: Answer)  // whatever the accessor gave, None and "" included
    | Opaque(token: nat)
    | TypeTag(reply: TypeReply)
    | Repr

  datatype ReadResult =
    | LacksReader
    | ReadFailed(error: ErrorCode)
    | NoValue
    | AccessDenied(detail: Option<Answer>)
    | Read(value: Decoded)
    | ReadEscaped                       // some other exception leaves the call

  datatype BrowseResult = Browsed(names: seq<string>) | BrowseError | BrowseEscaped

  /** What one level of a browse has to say. */
  datatype Level = Absent | Failed | Found(names: seq<string>) | Escapes

  class Binding {
    const has: set<Attr>
    const codes: map<TypeName, int>
    const replies: nat -> Return            // of model call number n
    const lists: nat -> List                // the payload of call n, as a linked list
    const shims: nat -> Reply<seq<string>>  // ... and as a plain iterable, which may raise
    const types: nat -> Reply<TypeReply>    // of getType call number n
    const answers: nat -> Reply<Answer>     // of accessor call number n
    const prints: nat -> bool               // whether `str` of the payload of call n works
    var calls: nat
    var typeAsks: nat
    var asks: nat
    var ledger: seq<Deed>     // what was done to payloads, in order

    constructor (has: set<Attr>, codes: map<TypeName, int>, replies: nat -> Return, lists: nat -> List,
                 shims: nat -> Reply<seq<string>>, types: nat -> Reply<TypeReply>, answers: nat -> Reply<Answer>,
                 prints: nat -> bool)
      ensures this.has == has && this.codes == codes && this.replies == replies && this.lists == lists
      ensures this.shims == shims && this.types == types && this.answers == answers && this.prints == prints
      ensures Consistent() && Settled() && calls == typeAsks == asks == 0
    {
      this.has, this.codes, this.replies, this.lists := has, codes, replies, lists;
      this.shims, this.types, this.answers, this.prints := shims, types, answers, prints;
      calls, typeAsks, asks, ledger := 0, 0, 0, [];
    }

    /** No payload has ever been used or freed out of turn. */
    ghost predicate Consistent()
      reads this
    {
      forall id: nat :: StatusOf(ledger, id) != Misused && (id >= calls ==> StatusOf(ledger, id) == Unknown)
    }

    /** Every payload handed over has been freed. */
    ghost predicate Settled()
      reads this
    {
      forall id: nat :: StatusOf(ledger, id) in {Unknown, Dead}
    }

    predicate CanFree() {
      ListDestroy in has && MmsDelete in has
    }

    predicate Walks() {
      GetNext in has && GetData in has
    }

    /** The payload of call `id`, if it has one that is walked, is a list that ends. */
    ghost predicate WalkEnds(id: nat) {
      var (present, error) := Unwrap(replies(id));
      Walks() && present && Succeeded(error) ==> Ends(lists(id))
    }

    /**
    Of the payloads that were handed over since, all have been freed but the leaked one,
    and nothing was done to any that came before.
    */
    twostate predicate AllFreedBut(new leak: Option<nat>)
      reads this
    {
      && (leak.Some? ==> old(calls) <= leak.value)
      && forall j: nat ::
           if j < old(calls) then StatusOf(ledger, j) == StatusOf(old(ledger), j)
           else if leak == Some(j) then StatusOf(ledger, j) == Live
           else StatusOf(ledger, j) in {Unknown, Dead}
    }

    /** Payload `id` is live and every other payload stands where it stood. */
    twostate predicate Holding(id: nat)
      reads this
    {
      && StatusOf(ledger, id) == Live
      && forall j: nat | j != id :: StatusOf(ledger, j) == StatusOf(old(ledger), j)
    }

    /** An accessor is called on a payload. */
    method Use(id: nat, attr: Attr)
      requires StatusOf(ledger, id) == Live
      modifies this`ledger
      ensures ledger == old(ledger) + [Used(id, attr)] && Holding(id)
    {
      Recorded(ledger, Used(id, attr));
      ledger := ledger + [Used(id, attr)];
    }

    /** ... while a list is walked. */
    method Spend(id: nat, attr: Attr, ghost from: nat)
      requires StatusOf(ledger, id) == Live && FreedWith(ledger, from, ListDestroy)
      modifies this`ledger
      ensures Holding(id) && old(ledger) <= ledger && FreedWith(ledger, from, ListDestroy)
    {
      Use(id, attr);
    }

    /** A model call through `_safe` and `_unwrap`; a payload counts only with error 0 or None. */
    method Call() returns (present: bool, error: ErrorCode, id: nat)
      requires Consistent()
      modifies this`calls, this`ledger
      ensures Consistent() && id == old(calls) && calls == id + 1
      ensures (present, error) == Unwrap(replies(id))
      ensures if present && Succeeded(error) then Holding(id) else ledger == old(ledger)
      ensures ledger == old(ledger) || ledger == old(ledger) + [Got(id)]
    {
      id := calls;
      calls := calls + 1;
      var (p, e) := Unwrap(replies(id));
      present, error := p, e;
      if present && Succeeded(error) {
        Recorded(ledger, Got(id));
        ledger := ledger + [Got(id)];
      }
    }

    /** Best-effort destructor; a helper that is missing leaves the payload alive. */
    method Free(id: nat, destructor: Attr)
      requires StatusOf(ledger, id) == Live
      modifies this`ledger
      ensures destructor in has ==> StatusOf(ledger, id) == Dead
      ensures destructor !in has ==> ledger == old(ledger)
      ensures forall j: nat | j != id :: StatusOf(ledger, j) == StatusOf(old(ledger), j)
      ensures ledger == if destructor in has then old(ledger) + [Freed(id, destructor)] else old(ledger)
    {
      if destructor in has {
        Recorded(ledger, Freed(id, destructor));
        ledger := ledger + [Freed(id, destructor)];
      }
    }

    // ----- browsing -----

    /**
    The reply of call `id` has no payload, or nothing can be collected from it. The walk
    of a list with elements collects nothing exactly if its first accessor raises or its
    first element cannot be read: that failure looks like an empty model.
    */
    predicate LooksEmpty(id: nat) {
      var l := lists(id);
      Unwrap(replies(id)).0 ==>
        if !Walks() then shims(id) == Given([])
        else l.first == Given(0) || l.first.Raised? || l.cells(l.first.value).data.Raised?
    }

    /** The strings that payload `id` yields, or that an exception escapes. */
    ghost function Listed(id: nat): Reply<seq<string>>
      requires Walks() ==> Ends(lists(id))
    {
      if Walks() then Rendered(Names(lists(id))) else shims(id)
    }

    /** The walk of a linked list; an exception ends it with what there is so far. */
    method Collect(id: nat) returns (texts: seq<Text>)
      requires Ends(lists(id)) && StatusOf(ledger, id) == Live
      modifies this`ledger
      ensures texts == Names(lists(id))
      ensures old(ledger) <= ledger && FreedWith(ledger, |old(ledger)|, ListDestroy)
      ensures Holding(id)
    {
      hide StatusOf, IsSpine, Readable, Names, FreedWith;
      NothingFreed(ledger, ListDestroy);
      texts := [];
      var cells, element := lists(id).cells, lists(id).first;
      ghost var spine :| IsSpine(cells, element, spine);
      NamesAre(lists(id), spine);
      ghost var rest := spine;
      Spend(id, GetNext, |old(ledger)|);
      while !AtEnd(element)
        invariant IsSpine(cells, element, rest)
        invariant Readable(cells, spine) == texts + Readable(cells, rest)
        invariant Holding(id) && old(ledger) <= ledger && FreedWith(ledger, |old(ledger)|, ListDestroy)
        decreases |rest|
      {
        SpineSteps(cells, element, rest);
        Spend(id, GetData, |old(ledger)|);
        var data := cells(element.value).data;
        if data.Raised? {
          return;
        }
        texts := texts + [data.value];
        Spend(id, GetNext, |old(ledger)|);
        element := cells(element.value).next;
        rest := rest[1..];
      }
      SpineSteps(cells, element, rest);
    }

    /** Exceptions of the walk itself are swallowed, those of a plain iteration and of `str` are not. */
    method LinkedListToStr(id: nat) returns (names: Reply<seq<string>>)
      requires (Walks() ==> Ends(lists(id))) && StatusOf(ledger, id) == Live
      modifies this`ledger
      ensures names == Listed(id)
      ensures old(ledger) <= ledger && FreedWith(ledger, |old(ledger)|, ListDestroy)
      ensures Holding(id)
    {
      if !Walks() {
        Use(id, GetData);
        return shims(id);
      }
      var texts := Collect(id);
      names := Rendered(texts);
    }

    /** The call succeeded, whatever came with it. */
    predicate Succeeds(attr: Attr, id: nat) {
      attr in has && Succeeded(Unwrap(replies(id)).1)
    }

    /** A failed browse is an error, an empty model is an empty list. */
    method GetLogicalDevices() returns (result: BrowseResult, ghost leak: Option<nat>)
      requires Consistent() && WalkEnds(calls)
      modifies this`calls, this`ledger
      ensures Consistent() && (CanFree() ==> AllFreedBut(leak)) && (leak.Some? <==> result.BrowseEscaped?)
      ensures old(ledger) <= ledger && FreedWith(ledger, |old(ledger)|, ListDestroy)
      ensures calls == NextCall(GetLogicalDeviceList, old(calls))
      ensures GetLogicalDeviceList !in has ==> result == BrowseError
      ensures GetLogicalDeviceList in has ==>
        match replies(old(calls))
        case RaisesError => result == BrowseError
        case BareInt(n) => result == if n != 0 then BrowseError else Browsed([])
        case Items(size, first, last) =>
          if size >= 2 && last != ErrorCode.Code(0) && last != NoCode then result == BrowseError
          else if size == 0 || !first then result == Browsed([])
          else result != BrowseError
        case Object => result != BrowseError
        case Nothing => result == Browsed([])
      ensures result == match LevelAt(GetLogicalDeviceList, old(calls))
                        case Found(names) => Browsed(names)
                        case Escapes => BrowseEscaped
                        case _ => BrowseError
      ensures result == Browsed([]) <==> Succeeds(GetLogicalDeviceList, old(calls)) && LooksEmpty(old(calls))
    {
      LevelsMean(this, GetLogicalDeviceList, calls);
      var level;
      level, leak := TryLevel(GetLogicalDeviceList);
      match level {
        case Found(names) => result := Browsed(names);
        case Escapes => result := BrowseEscaped;
        case _ => result := BrowseError;
      }
    }

    /** What browsing with helper `attr` says when it is model call number `id`. */
    ghost function LevelAt(attr: Attr, id: nat): Level
      requires WalkEnds(id)
    {
      if attr !in has then Absent
      else
        var (present, error) := Unwrap(replies(id));
        if !Succeeded(error) then Failed
        else if !present then Found([])
        else match Listed(id)
          case Given(names) => Found(names)
          case Raised => Escapes
    }

    /** The number of the call after an attempt. */
    function NextCall(attr: Attr, id: nat): nat {
      if attr in has then id + 1 else id
    }

    /** The number of the call that attempt `i` makes, if the first one starts at `id`. */
    function CallOf(attempts: seq<Attr>, id: nat, i: nat): (call: nat)
      requires i < |attempts|
      ensures id <= call <= id + i
    {
      if i == 0 then id else CallOf(attempts[1..], NextCall(attempts[0], id), i - 1)
    }

    /** What each of these attempts says if they are made in order from call `id` on. */
    ghost function Levels(attempts: seq<Attr>, id: nat): (levels: seq<Level>)
      requires forall n | id <= n < id + |attempts| :: WalkEnds(n)
      ensures |levels| == |attempts|
    {
      if attempts == [] then []
      else [LevelAt(attempts[0], id)] + Levels(attempts[1..], NextCall(attempts[0], id))
    }

    /** Some attempt succeeds, and every one that does has nothing to collect. */
    ghost predicate AllLookEmpty(attempts: seq<Attr>, id: nat) {
      && (exists i :: 0 <= i < |attempts| && Succeeds(attempts[i], CallOf(attempts, id, i)))
      && (forall i | 0 <= i < |attempts| && Succeeds(attempts[i], CallOf(attempts, id, i)) ::
            LooksEmpty(CallOf(attempts, id, i)))
    }

    /** One browse call; its payload, if it has one, is freed here unless an exception escapes. */
    method TryLevel(attr: Attr) returns (level: Level, ghost leak: Option<nat>)
      requires Consistent() && WalkEnds(calls)
      modifies this`calls, this`ledger
      ensures Consistent() && (CanFree() ==> AllFreedBut(leak)) && (leak.Some? <==> level.Escapes?)
      ensures old(ledger) <= ledger && FreedWith(ledger, |old(ledger)|, ListDestroy)
      ensures level == LevelAt(attr, old(calls))
      ensures calls == NextCall(attr, old(calls))
    {
      hide StatusOf, Ends, Binding.Listed;
      leak := None;
      if attr !in has {
        return Absent, leak;
      }
      var present, error, id := Call();
      if !Succeeded(error) {
        return Failed, leak;
      }
      if !present {
        return Found([]), leak;
      }
      var names := LinkedListToStr(id);
      if names.Raised? {
        return Escapes, Some(id);
      }
      Free(id, ListDestroy);
      level := Found(names.value);
    }

    /** The attempts in order, stopping at the first one that finds names. */
    method Browse(attempts: seq<Attr>) returns (result: BrowseResult, ghost leak: Option<nat>)
      requires Consistent() && forall n | calls <= n < calls + |attempts| :: WalkEnds(n)
      modifies this`calls, this`ledger
      ensures Consistent() && (CanFree() ==> AllFreedBut(leak)) && (leak.Some? <==> result.BrowseEscaped?)
      ensures old(ledger) <= ledger && FreedWith(ledger, |old(ledger)|, ListDestroy)
      ensures old(calls) <= calls
      ensures result == Verdict(Levels(attempts, old(calls)))
      ensures result == Browsed([]) <==> AllLookEmpty(attempts, old(calls))
    {
      SaysEmptyIff(this, attempts, calls);
      var sawSuccess := false;
      leak := None;
      ghost var start := calls;
      for i := 0 to |attempts|
        invariant Consistent() && (CanFree() ==> AllFreedBut(None))
        invariant old(ledger) <= ledger && FreedWith(ledger, |old(ledger)|, ListDestroy)
        invariant start <= calls <= start + i
        invariant Verdict(Levels(attempts, start)) == VerdictSoFar(Levels(attempts[i..], calls), sawSuccess)
      {
        assert attempts[i..][1..] == attempts[i + 1..];
        var level;
        level, leak := TryLevel(attempts[i]);
        if level.Escapes? {
          return BrowseEscaped, leak;
        }
        if level.Found? {
          sawSuccess := true;
          if level.names != [] {
            return Browsed(level.names), leak;
          }
        }
      }
      leak := None;
      if !sawSuccess {
        return BrowseError, leak;
      }
      result := Browsed([]);
    }

    /** Logical device, logical node, data object: tried in that order. */
    method GetDataDirectory() returns (result: BrowseResult, ghost leak: Option<nat>)
      requires Consistent() && forall n | calls <= n < calls + |BROWSE_LEVELS| :: WalkEnds(n)
      modifies this`calls, this`ledger
      ensures Consistent() && (CanFree() ==> AllFreedBut(leak)) && (leak.Some? <==> result.BrowseEscaped?)
      ensures old(ledger) <= ledger && FreedWith(ledger, |old(ledger)|, ListDestroy)
      ensures old(calls) <= calls
      ensures
        var levels := [GetLogicalDeviceDirectory, GetLogicalNodeDirectory, Attr.GetDataDirectory];
        result == Verdict(Levels(levels, old(calls)))
      ensures result == Browsed([]) <==> AllLookEmpty(BROWSE_LEVELS, old(calls))
    {
      result, leak := Browse(BROWSE_LEVELS);
    }

    // ----- reading -----

    /** `getType`, which may answer differently every time it is asked. */
    method AskType(id: nat) returns (t: Reply<TypeReply>)
      requires StatusOf(ledger, id) == Live
      modifies this`typeAsks, this`ledger
      ensures t == types(old(typeAsks)) && typeAsks == old(typeAsks) + 1
      ensures Holding(id) && ledger == old(ledger) + [Used(id, GetType)]
    {
      t := types(typeAsks);
      typeAsks := typeAsks + 1;
      Use(id, GetType);
    }

    method Ask(id: nat, accessor: Attr) returns (a: Reply<Answer>)
      requires StatusOf(ledger, id) == Live
      modifies this`asks, this`ledger
      ensures a == answers(old(asks)) && asks == old(asks) + 1
      ensures Holding(id) && ledger == old(ledger) + [Used(id, accessor)]
    {
      a := answers(asks);
      asks := asks + 1;
      Use(id, accessor);
    }

    /** The payload says that it is an access error. */
    predicate SaysAccessError(typeAsk: nat) {
      && GetType in has && MmsDataAccessError in codes
      && types(typeAsk) == Given(TypeCode(codes[MmsDataAccessError]))
    }

    /** ... and the accessor for its detail does not come back with None. */
    predicate Denied(typeAsk: nat, ask: nat) {
      SaysAccessError(typeAsk) && (GetDataAccessError in has ==> answers(ask) != Given(NoneAnswer))
    }

    /** The numbers of the calls after the check for an access error. */
    function NextTypeAsk(typeAsk: nat): nat {
      if GetType in has then typeAsk + 1 else typeAsk
    }

    function NextAsk(typeAsk: nat, ask: nat): nat {
      if SaysAccessError(typeAsk) && GetDataAccessError in has then ask + 1 else ask
    }

    /** The access error the payload carries, if it can be seen to be one. */
    method AccessErrorOf(id: nat) returns (error: Option<Option<Answer>>)
      requires StatusOf(ledger, id) == Live
      modifies this`typeAsks, this`asks, this`ledger
      ensures Holding(id) && OnlyBenign(|old(ledger)|) && old(ledger) <= ledger
      ensures typeAsks == NextTypeAsk(old(typeAsks)) && asks == NextAsk(old(typeAsks), old(asks))
      ensures error.Some? <==> Denied(old(typeAsks), old(asks))
      ensures error.Some? <==>
        && GetType in has && MmsDataAccessError in codes
        && types(old(typeAsks)) == Given(TypeCode(codes[MmsDataAccessError]))
        && (GetDataAccessError in has ==> answers(old(asks)) != Given(NoneAnswer))
      ensures error.Some? ==>
        var detail := answers(old(asks));
        error.value == if GetDataAccessError in has && detail.Given? then Some(detail.value) else None
    {
      if GetType !in has {
        return None;
      }
      var t := AskType(id);
      if t.Raised? || MmsDataAccessError !in codes || t.value != TypeCode(codes[MmsDataAccessError]) {
        return None;
      }
      if GetDataAccessError in has {
        var detail := Ask(id, GetDataAccessError);
        if detail.Given? {
          return if detail.value.NoneAnswer? then None else Some(Some(detail.value));
        }
      }
      error := Some(None);
    }

    /** No numeric accessor has run since the ledger had `from` entries. */
    ghost predicate OnlyBenign(from: nat)
      reads this
    {
      forall i | from <= i < |ledger| :: !ledger[i].Freed? && (ledger[i].Used? ==> !Numeric(ledger[i].attr))
    }

    /** The only numeric accessor that has run is the one listed for a reported type code. */
    ghost predicate OnlyNumbers(from: nat, reported: Option<int>)
      reads this
    {
      forall i | from <= i < |ledger| :: ledger[i].Used? && Numeric(ledger[i].attr) ==>
        reported.Some? && LookUp(ACCESSORS, codes, reported.value) == Some(ledger[i].attr)
    }

    /** ... and nothing was freed either. */
    ghost predicate OnlyMatching(from: nat, reported: Option<int>)
      reads this
    {
      OnlyNumbers(from, reported) && forall i | from <= i < |ledger| :: !ledger[i].Freed?
    }

    /** The accessor for the type the payload reports, if there is one. */
    method TypedDecoder(id: nat) returns (accessor: Reply<Option<Attr>>, ghost reported: Option<int>)
      requires StatusOf(ledger, id) == Live
      modifies this`typeAsks, this`ledger
      ensures Holding(id) && OnlyBenign(|old(ledger)|) && old(ledger) <= ledger
      ensures typeAsks == old(typeAsks) + 1
      ensures reported == CodeIn(types(old(typeAsks)))
      ensures accessor.Raised? <==> types(old(typeAsks)) == Given(Unhashable)
      ensures accessor.Given? ==> accessor.value == DecoderFor(reported)
    {
      var t := AskType(id);
      reported := CodeIn(t);
      if t.Raised? {
        return Given(None), reported;
      }
      if t.value.Unhashable? {
        return Raised, reported;
      }
      var a := LookUp(ACCESSORS, codes, t.value.n);
      if a.Some? && a.value !in has {
        a := None;
      }
      accessor := Given(a);
    }

    /** The type code in a reply, if it is one. */
    function CodeIn(t: Reply<TypeReply>): Option<int> {
      if t.Given? && t.value.TypeCode? then Some(t.value.n) else None
    }

    /** The accessor listed for a reported type code, if the binding has it. */
    function DecoderFor(reported: Option<int>): (a: Option<Attr>)
      ensures a.Some? ==> reported.Some? && LookUp(ACCESSORS, codes, reported.value) == a && a.value in has
    {
      if reported.None? then None
      else
        var a := LookUp(ACCESSORS, codes, reported.value);
        if a.Some? && a.value in has then a else None
    }

    /** Every datum in a decoded value was given by the binding since these call numbers. */
    ghost predicate Genuine(d: Decoded, ask0: nat, type0: nat)
      reads this`asks, this`typeAsks
    {
      match d
      case Scalar(_, answer) => exists n | ask0 <= n < asks :: answers(n) == Given(answer)
      case Opaque(token) => exists n | ask0 <= n < asks :: answers(n) == Given(Value(token))
      case TypeTag(reply) => exists n | type0 <= n < typeAsks :: types(n) == Given(reply)
      case Repr => true
    }

    /** What is made of payload `id` when its type does not help. */
    function OpaqueAt(id: nat, ask: nat, typeAsk: nat): Reply<Decoded> {
      if ToText in has && answers(ask).Given? && answers(ask).value.Value? then Given(Opaque(answers(ask).value.token))
      else if GetType in has && types(typeAsk).Given? then Given(TypeTag(types(typeAsk).value))
      else if prints(id) then Given(Repr)
      else Raised
    }

    /**
    The text accessor's text unless it is None or empty, else the type, else a bare
    representation, but never a number. An exception escapes if `str` raises in the end.
    */
    method OpaqueMms(id: nat) returns (d: Reply<Decoded>)
      requires StatusOf(ledger, id) == Live
      modifies this`typeAsks, this`asks, this`ledger
      ensures Holding(id) && OnlyBenign(|old(ledger)|) && old(ledger) <= ledger
      ensures d == OpaqueAt(id, old(asks), old(typeAsks))
      ensures d.Given? ==> !d.value.Scalar? && Genuine(d.value, old(asks), old(typeAsks))
      ensures forall token :: d == Given(Opaque(token)) <==> ToText in has && answers(old(asks)) == Given(Value(token))
      ensures d.Given? && d.value.TypeTag? ==> GetType in has && types(old(typeAsks)) == Given(d.value.reply)
      ensures d == Given(Repr) || d.Raised? ==>
        (GetType in has ==> types(old(typeAsks)).Raised?) && (d.Raised? <==> !prints(id))
      ensures old(typeAsks) <= typeAsks && old(asks) <= asks
    {
      if ToText in has {
        var text := Ask(id, ToText);
        if text.Given? && text.value.Value? {
          return Given(Opaque(text.value.token));
        }
      }
      if GetType in has {
        var t := AskType(id);
        if t.Given? {
          return Given(TypeTag(t.value));
        }
      }
      d := if prints(id) then Given(Repr) else Raised;
    }

    /** The call after one to an accessor that may be missing. */
    function AskedIf(accessor: Attr, ask: nat): nat {
      if accessor in has then ask + 1 else ask
    }

    function UntypedAt(id: nat, ask: nat, typeAsk: nat): Reply<Decoded> {
      var second := AskedIf(ToText, ask);
      if ToText in has && answers(ask).Given? then Given(Scalar(ToText, answers(ask).value))
      else if GetBoolean in has && answers(second).Given? then Given(Scalar(GetBoolean, answers(second).value))
      else OpaqueAt(id, AskedIf(GetBoolean, second), typeAsk)
    }

    /** The text accessor, then the boolean one, then an opaque value. */
    method DecodeUntyped(id: nat) returns (d: Reply<Decoded>)
      requires StatusOf(ledger, id) == Live
      modifies this`typeAsks, this`asks, this`ledger
      ensures Holding(id) && OnlyBenign(|old(ledger)|) && old(ledger) <= ledger
      ensures d == UntypedAt(id, old(asks), old(typeAsks))
      ensures d.Given? ==> Genuine(d.value, old(asks), old(typeAsks))
      ensures forall answer ::
        d == Given(Scalar(ToText, answer)) <==> ToText in has && answers(old(asks)) == Given(answer)
      ensures d.Given? && d.value.Scalar? ==> d.value.accessor in {ToText, GetBoolean}
      ensures d.Raised? || !d.value.Scalar? ==>
        && (ToText in has ==> answers(old(asks)).Raised?)
        && (GetBoolean in has ==> answers(AskedIf(ToText, old(asks))).Raised?)
    {
      hide StatusOf, Binding.OpaqueAt;
      if ToText in has {
        var a := Ask(id, ToText);
        if a.Given? {
          return Given(Scalar(ToText, a.value));
        }
      }
      if GetBoolean in has {
        var a := Ask(id, GetBoolean);
        if a.Given? {
          return Given(Scalar(GetBoolean, a.value));
        }
      }
      d := OpaqueMms(id);
    }

    function TypedAt(id: nat, ask: nat, typeAsk: nat): Reply<Decoded> {
      var accessor := DecoderFor(CodeIn(types(typeAsk)));
      if types(typeAsk) == Given(Unhashable) then Raised
      else if accessor.None? then OpaqueAt(id, ask, typeAsk + 1)
      else if answers(ask).Given? then Given(Scalar(accessor.value, answers(ask).value))
      else OpaqueAt(id, ask + 1, typeAsk + 1)
    }

    /** The accessor for the reported type, or else an opaque value; an unhashable type is fatal. */
    method DecodeTyped(id: nat) returns (d: Reply<Decoded>, ghost reported: Option<int>)
      requires StatusOf(ledger, id) == Live
      modifies this`typeAsks, this`asks, this`ledger
      ensures Holding(id) && old(ledger) <= ledger && OnlyMatching(|old(ledger)|, reported)
      ensures reported == CodeIn(types(old(typeAsks))) && old(typeAsks) < typeAsks
      ensures d == TypedAt(id, old(asks), old(typeAsks))
      ensures types(old(typeAsks)) == Given(Unhashable) ==> d.Raised?
      ensures d.Given? ==> Genuine(d.value, old(asks), old(typeAsks))
      ensures d.Given? && d.value.Scalar? ==> DecoderFor(reported) == Some(d.value.accessor)
      ensures DecoderFor(reported).Some? && answers(old(asks)).Given? ==>
        d == Given(Scalar(DecoderFor(reported).value, answers(old(asks)).value))
    {
      hide Binding.OpaqueAt;
      var accessor;
      accessor, reported := TypedDecoder(id);
      if accessor.Raised? {
        return Raised, reported;
      }
      if accessor.value.Some? {
        var a := Ask(id, accessor.value.value);
        if a.Given? {
          return Given(Scalar(accessor.value.value, a.value)), reported;
        }
      }
      d := OpaqueMms(id);
    }

    /** What is made of payload `id`, or that an exception escapes. */
    function DecodeAt(id: nat, ask: nat, typeAsk: nat): Reply<Decoded> {
      if GetType in has then TypedAt(id, ask, typeAsk) else UntypedAt(id, ask, typeAsk)
    }

    /**
    A numeric accessor runs, and a number comes back, only for a type code that the
    payload reported during this very call and that the table maps to that accessor.
    */
    method DecodeMms(id: nat) returns (d: Reply<Decoded>, ghost reported: Option<int>)
      requires StatusOf(ledger, id) == Live
      modifies this`typeAsks, this`asks, this`ledger
      ensures Holding(id) && old(ledger) <= ledger && OnlyMatching(|old(ledger)|, reported)
      ensures d == DecodeAt(id, old(asks), old(typeAsks))
      ensures d.Given? ==> Genuine(d.value, old(asks), old(typeAsks))
      ensures reported == if GetType in has then CodeIn(types(old(typeAsks))) else None
      ensures reported.Some? ==> old(typeAsks) < typeAsks
      ensures d.Given? && d.value.Scalar? && (reported.Some? || Numeric(d.value.accessor)) ==>
        DecoderFor(reported) == Some(d.value.accessor)
      ensures GetType in has ==>
        match types(old(typeAsks))
        case Raised => d == OpaqueAt(id, old(asks), old(typeAsks) + 1)
        case Given(Unhashable) => d == Raised
        case Given(TypeCode(t)) =>
          match LookUp(ACCESSORS, codes, t)
          case None => d == OpaqueAt(id, old(asks), old(typeAsks) + 1)
          case Some(a) =>
            if a !in has then d == OpaqueAt(id, old(asks), old(typeAsks) + 1)
            else match answers(old(asks))
              case Given(answer) => d == Given(Scalar(a, answer))
              case Raised => d == OpaqueAt(id, old(asks) + 1, old(typeAsks) + 1)
    {
      hide Binding.OpaqueAt;
      if GetType in has {
        d, reported := DecodeTyped(id);
      } else {
        d := DecodeUntyped(id);
        reported := None;
      }
    }

    /** What a read makes of payload `id` once the check for an access error has let it pass. */
    function ValueAt(id: nat, typeAsk: nat, ask: nat): Reply<Decoded> {
      DecodeAt(id, NextAsk(typeAsk, ask), NextTypeAsk(typeAsk))
    }

    /** An exception escapes the read of payload `id`. */
    predicate Escaping(id: nat, typeAsk: nat, ask: nat) {
      !Denied(typeAsk, ask) && ValueAt(id, typeAsk, ask).Raised?
    }

    /** A number in the result was read with the accessor for the type reported in this call. */
    ghost predicate Faithfully(result: ReadResult, reported: Option<int>) {
      result.Read? && result.value.Scalar? && Numeric(result.value.accessor) ==>
        DecoderFor(reported) == Some(result.value.accessor)
    }

    /** The part of a read that has a payload: it ends with the payload freed, unless an exception escapes. */
    method ReadPayload(id: nat) returns (result: ReadResult, ghost reported: Option<int>)
      requires StatusOf(ledger, id) == Live
      modifies this`typeAsks, this`asks, this`ledger
      ensures old(ledger) <= ledger
      ensures StatusOf(ledger, id) == if result.ReadEscaped? || MmsDelete !in has then Live else Dead
      ensures forall j: nat | j != id :: StatusOf(ledger, j) == StatusOf(old(ledger), j)
      ensures OnlyNumbers(|old(ledger)|, reported) && Faithfully(result, reported)
      ensures result.AccessDenied? || result.Read? || result.ReadEscaped?
      ensures FreedWith(ledger, |old(ledger)|, MmsDelete)
      ensures result.AccessDenied? <==> Denied(old(typeAsks), old(asks))
      ensures result.AccessDenied? ==>
        var detail := answers(old(asks));
        result.detail == if GetDataAccessError in has && detail.Given? then Some(detail.value) else None
      ensures result.ReadEscaped? <==> Escaping(id, old(typeAsks), old(asks))
      ensures result.Read? ==> ValueAt(id, old(typeAsks), old(asks)) == Given(result.value)
      ensures reported.Some? ==>
        exists n | old(typeAsks) <= n < typeAsks :: types(n) == Given(TypeCode(reported.value))
      ensures result.Read? ==> Genuine(result.value, old(asks), old(typeAsks))
    {
      hide StatusOf, Binding.DecodeAt, Binding.Denied, Binding.DecoderFor;
      reported := None;
      var denied := AccessErrorOf(id);
      if denied.Some? {
        Free(id, MmsDelete);
        return AccessDenied(denied.value), reported;
      }
      ghost var asked, counted := typeAsks, asks;
      var value;
      value, reported := DecodeMms(id);
      assert reported.Some? ==> types(asked) == Given(TypeCode(reported.value));
      if value.Raised? {
        return ReadEscaped, reported;
      }
      assert Genuine(value.value, counted, asked);
      Free(id, MmsDelete);
      result := Read(value.value);
    }

    /** Read one attribute; its payload, if there is one, is freed unless an exception escapes. */
    method ReadAttribute() returns (result: ReadResult, ghost reported: Option<int>, ghost leak: Option<nat>)
      requires Consistent()
      modifies this`calls, this`typeAsks, this`asks, this`ledger
      ensures Consistent() && (CanFree() ==> AllFreedBut(leak)) && (leak.Some? <==> result.ReadEscaped?)
      ensures calls == NextCall(ReadObject, old(calls))
      ensures old(ledger) <= ledger && FreedWith(ledger, |old(ledger)|, MmsDelete)
      ensures result.LacksReader? <==> ReadObject !in has
      ensures ReadObject in has ==>
        match replies(old(calls))
        case RaisesError => result == ReadFailed(ErrorCode.Code(-1))
        case BareInt(n) => result == if n != 0 then ReadFailed(ErrorCode.Code(n)) else NoValue
        case Items(size, first, last) =>
          if size >= 2 && last != ErrorCode.Code(0) && last != NoCode then result == ReadFailed(last)
          else if size == 0 || !first then result == NoValue
          else result.AccessDenied? || result.Read? || result.ReadEscaped?
        case Object => result.AccessDenied? || result.Read? || result.ReadEscaped?
        case Nothing => result == NoValue
      ensures result.AccessDenied? ==>
        var detail := answers(old(asks));
        result.detail == if GetDataAccessError in has && detail.Given? then Some(detail.value) else None
      ensures result.Read? ==> ValueAt(old(calls), old(typeAsks), old(asks)) == Given(result.value)
      ensures ReadObject in has ==>
        var id := old(calls);
        var (present, error) := Unwrap(replies(id));
        var denied, escaping := Denied(old(typeAsks), old(asks)), Escaping(id, old(typeAsks), old(asks));
        && (result == ReadFailed(error) <==> !Succeeded(error))
        && (result == NoValue <==> Succeeded(error) && !present)
        && (result.AccessDenied? <==> Succeeded(error) && present && denied)
        && (result.ReadEscaped? <==> Succeeded(error) && present && escaping)
        && (result.Read? <==> Succeeded(error) && present && !denied && !escaping)
      ensures OnlyNumbers(|old(ledger)|, reported) && Faithfully(result, reported)
      ensures reported.Some? ==>
        exists n | old(typeAsks) <= n < typeAsks :: types(n) == Given(TypeCode(reported.value))
      ensures result.Read? ==> Genuine(result.value, old(asks), old(typeAsks))
    {
      hide StatusOf, Binding.ValueAt, Binding.Denied, Binding.DecoderFor;
      reported, leak := None, None;
      if ReadObject !in has {
        return LacksReader, reported, leak;
      }
      var present, error, id := Call();
      if !Succeeded(error) {
        return ReadFailed(error), reported, leak;
      }
      if !present {
        return NoValue, reported, leak;
      }
      result, reported := ReadPayload(id);
      if result.ReadEscaped? {
        leak := Some(id);
      }
    }
  }

  /** What the call of a level has to do with what the level says. */
  lemma LevelsMean(b: Binding, attr: Attr, id: nat)
    requires b.WalkEnds(id)
    ensures b.LevelAt(attr, id) == Found([]) <==> b.Succeeds(attr, id) && b.LooksEmpty(id)
    ensures b.LevelAt(attr, id).Found? || b.LevelAt(attr, id).Escapes? <==> b.Succeeds(attr, id)
  {
    var (present, error) := Unwrap(b.replies(id));
    if b.Walks() && present && Succeeded(error) {
      NothingCollectedIff(b.lists(id));
    }
  }

  /** A reply that brings a payload and no error. */
  predicate Carries(r: Return) {
    match r
    case Object => true
    case Items(size, first, last) =>
      first && (size == 1 || (size >= 2 && (last == ErrorCode.Code(0) || last == NoCode)))
    case _ => false
  }

  /**
  The names a level finds are the data of the elements of its list, in order and up to the
  first one that cannot be read, unless `str` of one of them raises.
  */
  lemma LevelFinds(b: Binding, attr: Attr, id: nat, chain: seq<nat>, k: nat)
    requires attr in b.has && b.Walks()
    requires Carries(b.replies(id))
    requires IsChain(b.lists(id).cells, b.lists(id).first, chain) && k <= |chain|
    requires forall i | 0 <= i < k :: b.lists(id).cells(chain[i]).data.Given?
    requires k < |chain| ==> b.lists(id).cells(chain[k]).data.Raised?
    ensures b.WalkEnds(id)
    ensures
      var unprintable := exists i :: 0 <= i < k && b.lists(id).cells(chain[i]).data == Given(Unprintable);
      && (unprintable <==> b.LevelAt(attr, id) == Escapes)
      && (!unprintable ==>
            && b.LevelAt(attr, id).Found? && |b.LevelAt(attr, id).names| == k
            && forall i | 0 <= i < k ::
                 b.lists(id).cells(chain[i]).data == Given(Plain(b.LevelAt(attr, id).names[i])))
  {
    hide Rendered, IsChain;
    var l := b.lists(id);
    WholeListIff(l, chain);
    assert |Names(l)| == k;
    if Unprintable in Names(l) {
      var i :| 0 <= i < |Names(l)| && Names(l)[i] == Unprintable;
    }
  }

  /** Without list accessors the names are those of plain iteration, or its exception escapes. */
  lemma IteratedLevel(b: Binding, attr: Attr, id: nat)
    requires attr in b.has && !b.Walks()
    requires Carries(b.replies(id))
    ensures b.WalkEnds(id)
    ensures b.LevelAt(attr, id) == match b.shims(id) case Given(names) => Found(names) case Raised => Escapes
  {
  }

  lemma {:induction false} LevelsAre(b: Binding, attempts: seq<Attr>, id: nat, i: nat)
    requires forall n | id <= n < id + |attempts| :: b.WalkEnds(n)
    requires i < |attempts|
    ensures b.Levels(attempts, id)[i] == b.LevelAt(attempts[i], b.CallOf(attempts, id, i))
  {
    if i > 0 {
      LevelsAre(b, attempts[1..], b.NextCall(attempts[0], id), i - 1);
    }
  }

  /** A browse says "empty" exactly if some attempt succeeds and none that does has anything to collect. */
  lemma SaysEmptyIff(b: Binding, attempts: seq<Attr>, id: nat)
    requires forall n | id <= n < id + |attempts| :: b.WalkEnds(n)
    ensures Verdict(b.Levels(attempts, id)) == Browsed([]) <==> b.AllLookEmpty(attempts, id)
  {
    hide Verdict, Binding.Levels, Binding.LevelAt, Binding.CallOf, Binding.WalkEnds;
    hide Binding.Succeeds, Binding.LooksEmpty;
    var levels := b.Levels(attempts, id);
    BrowseMeans(levels);
    forall i | 0 <= i < |attempts|
      ensures levels[i] == Found([]) <==>
        b.Succeeds(attempts[i], b.CallOf(attempts, id, i)) && b.LooksEmpty(b.CallOf(attempts, id, i))
      ensures levels[i].Found? || levels[i].Escapes? <==> b.Succeeds(attempts[i], b.CallOf(attempts, id, i))
    {
      LevelsAre(b, attempts, id, i);
      LevelsMean(b, attempts[i], b.CallOf(attempts, id, i));
    }
    if b.AllLookEmpty(attempts, id) {
      var i :| 0 <= i < |attempts| && b.Succeeds(attempts[i], b.CallOf(attempts, id, i));
      assert levels[i].Found?;
    }
    if Verdict(levels) == Browsed([]) {
      var i :| 0 <= i < |levels| && levels[i].Found?;
      assert b.Succeeds(attempts[i], b.CallOf(attempts, id, i));
    }
  }

  // ----- sequences of calls -----

  datatype Op = Devices | Directory | Attribute

  datatype Result = OfBrowse(browse: BrowseResult) | OfRead(read: ReadResult)

  predicate Leaks(r: Result) {
    match r case OfBrowse(browse) => browse.BrowseEscaped? case OfRead(read) => read.ReadEscaped?
  }

  function CountLeaks(results: seq<Result>): nat {
    if results == [] then 0
    else CountLeaks(results[..|results| - 1]) + if Leaks(results[|results| - 1]) then 1 else 0
  }

  lemma {:induction false} NoLeaksIff(results: seq<Result>)
    ensures CountLeaks(results) == 0 <==> forall r | r in results :: !Leaks(r)
  {
    if results != [] {
      var n := |results| - 1;
      NoLeaksIff(results[..n]);
      assert results == results[..n] + [results[n]];
    }
  }

  /** One read or browse. */
  method Perform(b: Binding, op: Op) returns (result: Result, ghost leak: Option<nat>)
    requires b.Consistent() && b.CanFree() && forall n: nat :: b.WalkEnds(n)
    modifies b`calls, b`typeAsks, b`asks, b`ledger
    ensures b.Consistent() && b.AllFreedBut(leak) && old(b.calls) <= b.calls
    ensures leak.Some? <==> Leaks(result)
  {
    match op {
      case Devices =>
        var browse;
        browse, leak := b.GetLogicalDevices();
        result := OfBrowse(browse);
      case Directory =>
        var browse;
        browse, leak := b.GetDataDirectory();
        result := OfBrowse(browse);
      case Attribute =>
        var read;
        ghost var reported;
        read, reported, leak := b.ReadAttribute();
        result := OfRead(read);
    }
  }

  /**
  Any sequence of reads and browses: every payload handed over is freed exactly once and
  not touched afterwards, except one for each call that an exception escapes from. So all
  of them are freed exactly if no exception escapes.
  */
  method Run(b: Binding, ops: seq<Op>) returns (results: seq<Result>, ghost leaked: set<nat>)
    requires b.Consistent() && b.Settled() && b.CanFree() && forall n: nat :: b.WalkEnds(n)
    modifies b`calls, b`typeAsks, b`asks, b`ledger
    ensures b.Consistent() && |results| == |ops| && |leaked| == CountLeaks(results)
    ensures forall d | d in b.ledger :: FreedOnce(b.ledger, d.id) <==> d.id !in leaked
    ensures Balanced(b.ledger) <==> forall r | r in results :: !Leaks(r)
  {
    results, leaked := [], {};
    for i := 0 to |ops|
      invariant b.Consistent() && |results| == i && |leaked| == CountLeaks(results)
      invariant forall id | id in leaked :: id < b.calls
      invariant LiveExactly(b.ledger, leaked)
    {
      ghost var before := b.ledger;
      var result;
      ghost var leak;
      result, leak := Perform(b, ops[i]);
      results := results + [result];
      assert results[..i] + [result] == results;
      if leak.Some? {
        leaked := leaked + {leak.value};
      }
    }
    LeaksBalance(b.ledger, leaked);
    NoLeaksIff(results);
  }

  /**
  An access error can come back as a value: when the accessor for its detail returns
  None, the read goes on to decode the payload.
  */
  method DeniedReadComesBack(code: int) returns (result: ReadResult, b: Binding)
    ensures b.SaysAccessError(0) && result.Read?
  {
    b := new Binding({ReadObject, GetType, GetDataAccessError}, map[MmsDataAccessError := code],
                     (n: nat) => PAYLOAD, (n: nat) => NO_LIST, (n: nat) => Raised,
                     (n: nat) => Given(TypeCode(code)), (n: nat) => Given(NoneAnswer), (n: nat) => true);
    ghost var reported, leak;
    result, reported, leak := b.ReadAttribute();
  }

  const PAYLOAD := Items(2, true, Code(0))
  const NO_LIST := List(Given(0), (m: nat) => Cell(Raised, Raised))

  /** A plain iterable that raises, or a type that cannot be looked up: the payload is never freed. */
  method LeakingCalls() returns (browse: BrowseResult, read: ReadResult, b: Binding)
    ensures b.CanFree() && browse.BrowseEscaped? && read.ReadEscaped?
    ensures StatusOf(b.ledger, 0) == Live && StatusOf(b.ledger, 1) == Live
  {
    hide Binding.OpaqueAt, Binding.UntypedAt, LookUp, Rendered, FreedWith;
    b := new Binding({GetLogicalDeviceList, ReadObject, GetType, ListDestroy, MmsDelete}, map[],
                     (n: nat) => PAYLOAD, (n: nat) => NO_LIST, (n: nat) => Raised,
                     (n: nat) => Given(Unhashable), (n: nat) => Raised, (n: nat) => true);
    ghost var reported, leak;
    browse, leak := b.GetLogicalDevices();
    read, reported, leak := b.ReadAttribute();
  }

  const WALKER := {GetLogicalDeviceList, GetLogicalDeviceDirectory, GetNext, GetData, ListDestroy, MmsDelete}

  /** The list of devices cannot even be entered, and the model looks empty. */
  method FailedBrowseLooksEmpty() returns (devices: BrowseResult, directory: BrowseResult)
    ensures devices == Browsed([]) && directory == Browsed([])
  {
    var list := List(Raised, (m: nat) => Cell(Raised, Raised));
    var b := new Binding(WALKER, map[], (n: nat) => PAYLOAD, (n: nat) => list, (n: nat) => Raised,
                         (n: nat) => Raised, (n: nat) => Raised, (n: nat) => true);
    assert IsSpine(list.cells, list.first, []);
    ghost var leak;
    devices, leak := b.GetLogicalDevices();
    assert b.CallOf(BROWSE_LEVELS, 1, 0) == 1;
    directory, leak := b.GetDataDirectory();
  }

  function TwoDevices(at: nat): Cell {
    if at == 1 then Cell(Given(2), Given(Plain("LD0"))) else Cell(Given(0), Raised)
  }

  /** Of two devices the second cannot be read: the one name comes back as if it were all. */
  method TruncatedBrowse() returns (devices: BrowseResult)
    ensures IsChain(TwoDevices, Given(1), [1, 2]) && devices == Browsed(["LD0"])
  {
    var list := List(Given(1), TwoDevices);
    var b := new Binding(WALKER, map[], (n: nat) => PAYLOAD, (n: nat) => list, (n: nat) => Raised,
                         (n: nat) => Raised, (n: nat) => Raised, (n: nat) => true);
    TwoDevicesTruncated(list);
    ghost var leak;
    devices, leak := b.GetLogicalDevices();
  }

  lemma TwoDevicesTruncated(list: List)
    requires list == List(Given(1), TwoDevices)
    ensures IsChain(TwoDevices, Given(1), [1, 2])
    ensures Ends(list) && Rendered(Names(list)) == Given(["LD0"])
  {
    assert [1, 2][1..] == [2] && [2][1..] == [] && [1][1..] == [];
    assert IsChain(TwoDevices, Given(2), [2]);
    assert IsSpine(TwoDevices, Given(2), []);
    assert IsSpine(TwoDevices, Given(1), [1]);
    NamesAre(list, [1]);
    assert Readable(TwoDevices, []) == [];
    assert Readable(TwoDevices, [1]) == [Plain("LD0")];
    var r := Rendered([Plain("LD0")]);
    assert r.Given? && r.value == ["LD0"];
  }

  const BROWSE_LEVELS := [GetLogicalDeviceDirectory, GetLogicalNodeDirectory, GetDataDirectory]

  function VerdictSoFar(levels: seq<Level>, sawSuccess: bool): BrowseResult {
    if levels == [] then if sawSuccess then Browsed([]) else BrowseError
    else match levels[0]
      case Found(names) => if names != [] then Browsed(names) else VerdictSoFar(levels[1..], true)
      case Escapes => BrowseEscaped
      case _ => VerdictSoFar(levels[1..], sawSuccess)
  }

  function Verdict(levels: seq<Level>): BrowseResult {
    VerdictSoFar(levels, false)
  }

  /** A level after which no other one is tried, and what the browse then comes to. */
  predicate Decides(l: Level) {
    l.Escapes? || (l.Found? && l.names != [])
  }

  function Decision(l: Level): BrowseResult
    requires Decides(l)
  {
    if l.Escapes? then BrowseEscaped else Browsed(l.names)
  }

  ghost predicate IsFirst(levels: seq<Level>, i: nat) {
    i < |levels| && Decides(levels[i]) && forall j | 0 <= j < i :: !Decides(levels[j])
  }

  lemma {:induction false} FirstDecides(levels: seq<Level>, sawSuccess: bool, i: nat)
    requires IsFirst(levels, i)
    ensures VerdictSoFar(levels, sawSuccess) == Decision(levels[i])
  {
    if i > 0 {
      FirstDecides(levels[1..], sawSuccess || levels[0].Found?, i - 1);
    }
  }

  lemma {:induction false} NoneDecides(levels: seq<Level>, sawSuccess: bool)
    requires forall j | 0 <= j < |levels| :: !Decides(levels[j])
    ensures VerdictSoFar(levels, sawSuccess) ==
      if sawSuccess || exists j :: 0 <= j < |levels| && levels[j].Found? then Browsed([]) else BrowseError
  {
    if levels != [] {
      NoneDecides(levels[1..], sawSuccess || levels[0].Found?);
      assert forall j | 1 <= j < |levels| :: levels[j] == levels[1..][j - 1];
      if j :| 1 <= j < |levels| && levels[j].Found? {
        assert levels[1..][j - 1].Found?;
      }
    }
  }

  /** The first level that decides, given some level that does. */
  lemma {:induction false} FirstDecider(levels: seq<Level>, i: nat) returns (first: nat)
    requires i < |levels| && Decides(levels[i])
    ensures IsFirst(levels, first)
  {
    first := i;
    if j :| 0 <= j < i && Decides(levels[j]) {
      first := FirstDecider(levels, j);
    }
  }

  /**
  An error means that no level succeeded, an empty list that some did but none of
  them had names, and names are those of the first level that had any, unless an
  exception escaped from an earlier one.
  */
  lemma BrowseMeans(levels: seq<Level>)
    ensures Verdict(levels) == BrowseError <==>
      forall j | 0 <= j < |levels| :: !levels[j].Found? && !levels[j].Escapes?
    ensures Verdict(levels) == Browsed([]) <==>
      && (exists j :: 0 <= j < |levels| && levels[j].Found?)
      && (forall j | 0 <= j < |levels| :: !Decides(levels[j]))
    ensures forall names | names != [] ::
      Verdict(levels) == Browsed(names) <==> exists i: nat :: IsFirst(levels, i) && levels[i] == Found(names)
    ensures Verdict(levels) == BrowseEscaped <==> exists i: nat :: IsFirst(levels, i) && levels[i].Escapes?
  {
    if i :| 0 <= i < |levels| && Decides(levels[i]) {
      var first := FirstDecider(levels, i);
      FirstDecides(levels, false, first);
      forall j | IsFirst(levels, j) ensures j == first {
      }
    } else {
      NoneDecides(levels, false);
    }
  }
}
