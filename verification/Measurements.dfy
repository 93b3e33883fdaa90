/** Points harvested from the DNP3 stack and the labels they carry. */
module Measurements {
  import opened Options

  /** What the stack hands over: an index and a measurement, already rendered. */
  datatype Item = Item(index: int, value: string, quality: string, timestamp: string)

  datatype Label = Known(name: string) | Group(group: int) | UnknownCollection(name: string)

  datatype Point = Point(group: Option<int>, kind: Label, item: Item)

  const GROUP_TYPE: map<int, string> := map[
    1 := "binary_input",
    2 := "binary_input_event",
    3 := "double_bit_binary",
    20 := "counter",
    21 := "frozen_counter",
    22 := "counter_event",
    30 := "analog_input",
    32 := "analog_input_event",
    40 := "analog_output_status",
    10 := "binary_output_status",
    50 := "time_and_interval",
    110 := "octet_string"
  ]

  const COLLECTION_GROUP: map<string, int> := map[
    "IndexedBinary" := 1,
    "IndexedDoubleBitBinary" := 3,
    "IndexedAnalog" := 30,
    "IndexedCounter" := 20,
    "IndexedFrozenCounter" := 21,
    "IndexedBinaryOutputStatus" := 10,
    "IndexedAnalogOutputStatus" := 40,
    "IndexedTimeAndInterval" := 50,
    "IndexedOctetString" := 110
  ]

  function MeasurementType(group: int): Label {
    if group in GROUP_TYPE then Known(GROUP_TYPE[group]) else Group(group)
  }

  const PREFIX := "ICollection"

  /** `str.replace(PREFIX, "")`: every occurrence is dropped, from left to right. */
  function Stripped(s: string): string {
    if |s| < |PREFIX| then s
    else if s[..|PREFIX|] == PREFIX then Stripped(s[|PREFIX|..])
    else [s[0]] + Stripped(s[1..])
  }

  /**
  The point recorded for one item of a collection whose class has this name. The group
  is looked up under the stripped name; the label of an unknown class keeps all of it.
  */
  function Harvested(collection: string, item: Item): Point {
    var name := Stripped(collection);
    if name in COLLECTION_GROUP then
      var group := COLLECTION_GROUP[name];
      Point(Some(group), MeasurementType(group), item)
    else
      Point(None, UnknownCollection(collection), item)
  }

  /** `part` is in `s`, from position `i` on. */
  predicate At(s: string, part: string, i: nat) {
    i + |part| <= |s| && s[i..i + |part|] == part
  }

  ghost predicate Contains(s: string, part: string) {
    exists i :: At(s, part, i)
  }

  lemma OneFurther(s: string, part: string, i: nat)
    requires s != []
    ensures At(s[1..], part, i) <==> At(s, part, i + 1)
  {
    if i + 1 + |part| <= |s| {
      assert s[1..][i..i + |part|] == s[i + 1..i + 1 + |part|];
    }
  }

  /** Without the prefix in it a name stays as it is. */
  lemma {:induction false} NothingToStrip(s: string)
    requires !Contains(s, PREFIX)
    ensures Stripped(s) == s
  {
    if |s| >= |PREFIX| {
      assert !At(s, PREFIX, 0);
      forall i: nat ensures !At(s[1..], PREFIX, i) {
        OneFurther(s, PREFIX, i);
      }
      NothingToStrip(s[1..]);
    }
  }

  /** The first occurrence of the prefix is dropped, and the rest goes the same way. */
  lemma {:induction false} FirstIsStripped(s: string, i: nat)
    requires At(s, PREFIX, i) && forall k: nat | k < i :: !At(s, PREFIX, k)
    ensures Stripped(s) == s[..i] + Stripped(s[i + |PREFIX|..])
  {
    if i > 0 {
      assert !At(s, PREFIX, 0);
      OneFurther(s, PREFIX, i - 1);
      forall k: nat | k < i - 1 ensures !At(s[1..], PREFIX, k) {
        OneFurther(s, PREFIX, k);
      }
      FirstIsStripped(s[1..], i - 1);
      assert s[1..][i - 1 + |PREFIX|..] == s[i + |PREFIX|..];
    }
  }

  lemma PrefixIsStripped(rest: string)
    requires !Contains(rest, PREFIX)
    ensures Stripped(PREFIX + rest) == rest && Stripped(rest) == rest
  {
    assert (PREFIX + rest)[..|PREFIX|] == PREFIX && (PREFIX + rest)[|PREFIX|..] == rest;
    assert At(PREFIX + rest, PREFIX, 0);
    FirstIsStripped(PREFIX + rest, 0);
    NothingToStrip(rest);
  }

  /**
  A point has a group exactly if its class, with the prefix dropped, is in the table, and
  then it is the group listed there with that group's type. A class outside the table never
  gets a group: the point is labelled with the whole name of the class instead.
  */
  lemma GroupOnlyFromTable(rest: string, collection: string, item: Item)
    requires !Contains(rest, PREFIX) && (collection == rest || collection == PREFIX + rest)
    ensures
      var p := Harvested(collection, item);
      && p.item == item
      && (p.group.Some? <==> rest in COLLECTION_GROUP)
      && (rest in COLLECTION_GROUP ==>
            && p.group == Some(COLLECTION_GROUP[rest])
            && COLLECTION_GROUP[rest] in GROUP_TYPE && p.kind == Known(GROUP_TYPE[COLLECTION_GROUP[rest]]))
      && (rest !in COLLECTION_GROUP ==> p.group == None && p.kind == UnknownCollection(collection))
  {
    hide Stripped;
    PrefixIsStripped(rest);
  }

  lemma NoPrefixInTable(name: string)
    requires name in COLLECTION_GROUP
    ensures !Contains(name, PREFIX)
  {
    TableNames(name);
    forall i: nat ensures !At(name, PREFIX, i) {
      PrefixLetters(name, i);
    }
  }

  lemma PrefixLetters(s: string, i: nat)
    ensures At(s, PREFIX, i) ==> i + 1 < |s| && s[i] == 'I' && s[i + 1] == 'C'
  {
    if At(s, PREFIX, i) {
      assert s[i..i + |PREFIX|][0] == PREFIX[0] && s[i..i + |PREFIX|][1] == PREFIX[1];
    }
  }

  lemma TableNames(name: string)
    requires name in COLLECTION_GROUP
    ensures forall i | 0 <= i < |name| - 1 :: name[i] == 'I' ==> name[i + 1] != 'C'
  {
  }

  /** What the stack's kinds of collection are labelled. */
  lemma KnownCollections(name: string, group: int, kind: string, item: Item)
    requires
      || (name, group, kind) == ("IndexedBinary", 1, "binary_input")
      || (name, group, kind) == ("IndexedDoubleBitBinary", 3, "double_bit_binary")
      || (name, group, kind) == ("IndexedAnalog", 30, "analog_input")
      || (name, group, kind) == ("IndexedCounter", 20, "counter")
      || (name, group, kind) == ("IndexedFrozenCounter", 21, "frozen_counter")
      || (name, group, kind) == ("IndexedBinaryOutputStatus", 10, "binary_output_status")
      || (name, group, kind) == ("IndexedAnalogOutputStatus", 40, "analog_output_status")
      || (name, group, kind) == ("IndexedTimeAndInterval", 50, "time_and_interval")
      || (name, group, kind) == ("IndexedOctetString", 110, "octet_string")
    ensures Harvested(PREFIX + name, item) == Point(Some(group), Known(kind), item)
    ensures Harvested(name, item) == Point(Some(group), Known(kind), item)
  {
    hide Harvested;
    NoPrefixInTable(name);
    GroupOnlyFromTable(name, PREFIX + name, item);
    GroupOnlyFromTable(name, name, item);
  }

  /** No other collection has a group. */
  lemma NoOtherCollections(collection: string, item: Item)
    requires Harvested(collection, item).group.Some?
    ensures Stripped(collection) in {
      "IndexedBinary", "IndexedDoubleBitBinary", "IndexedAnalog", "IndexedCounter", "IndexedFrozenCounter",
      "IndexedBinaryOutputStatus", "IndexedAnalogOutputStatus", "IndexedTimeAndInterval", "IndexedOctetString" }
  {
    hide Stripped;
  }

  /** The types that no collection stands for, and groups that are not in the table. */
  lemma OtherGroups(group: int)
    ensures MeasurementType(2) == Known("binary_input_event")
    ensures MeasurementType(22) == Known("counter_event")
    ensures MeasurementType(32) == Known("analog_input_event")
    ensures group !in {1, 2, 3, 10, 20, 21, 22, 30, 32, 40, 50, 110} <==> MeasurementType(group) == Group(group)
  {
  }
}
