/**
 Reading a days or slots answer whose field names are not known beforehand
 (api/availability.py): what can be read as a date or a time decides which field is
 meant, if only one can be.  `None` stands for an unrecognised schema.
 */
module Parsing {
  import opened Common
  import opened Calendar
  import opened Sorting
  import Text
  import opened Http
  import Scan

  /** A value of a record; only strings are ever read. */
  datatype Scalar = Written(text: string) | Other

  type Record = map<string, Scalar>

  datatype Item = Word(text: string) | Object(fields: Record) | Odd

  // ---------------------------------------------------------------------------
  // The one readable field
  // ---------------------------------------------------------------------------

  type Reader<!T> = string -> Option<T>

  function Read<T>(reader: Reader<T>, value: Scalar): Option<T> {
    match value
    case Written(text) => reader(text)
    case Other => None
  }

  /** There are records, and the field can be read in all of them. */
  predicate InEvery<T>(records: seq<Record>, reader: Reader<T>, field: string) {
    records != [] && forall r <- records :: field in r && Read(reader, r[field]).Some?
  }

  /** And no other field does. */
  ghost predicate TheField<T>(records: seq<Record>, reader: Reader<T>, field: string) {
    InEvery(records, reader, field) && forall other :: InEvery(records, reader, other) ==> other == field
  }

  /** Fields are intersected record by record; the loop ends early once none is left. */
  method SingleField<T>(records: seq<Record>, reader: Reader<T>) returns (field: Option<string>)
    ensures field.Some? ==> TheField(records, reader, field.value)
    ensures field.None? ==> forall f :: !TheField(records, reader, f)
  {
    var common: Option<set<string>> := None;
    for i := 0 to |records|
      invariant common.None? <==> i == 0
      invariant common.Some? ==> forall f :: f in common.value <==> InEvery(records[..i], reader, f)
      invariant common.Some? ==> common.value != {}
    {
      var record := records[i];
      assert records[..i + 1] == records[..i] + [record];
      var readable := set key | key in record && Read(reader, record[key]).Some?;
      var left := if common.None? then readable else common.value * readable;
      assert forall f :: f in left <==> InEvery(records[..i + 1], reader, f);
      if left == {} {
        NoFieldLeft(records, reader, i + 1, left);
        return None;
      }
      common := Some(left);
    }
    assert records[..|records|] == records;
    if common.None? {
      return None;
    }
    var found :| found in common.value;
    if common.value != {found} {
      var other :| other in common.value && other != found;
      assert InEvery(records, reader, found) && InEvery(records, reader, other);
      return None;
    }
    return Some(found);
  }

  lemma NoFieldLeft<T>(records: seq<Record>, reader: Reader<T>, n: nat, left: set<string>)
    requires 0 < n <= |records| && left == {} && forall f :: f in left <==> InEvery(records[..n], reader, f)
    ensures forall f :: !InEvery(records, reader, f)
  {
    forall f | InEvery(records, reader, f) ensures InEvery(records[..n], reader, f) {
      assert forall r <- records[..n] :: r in records;
    }
  }

  // ---------------------------------------------------------------------------
  // Clock times
  // ---------------------------------------------------------------------------

  /** Hours and minutes, with or without seconds, and no other spelling. */
  function StrictClock(value: string): Option<Clock> {
    var text := Text.Strip(value);
    if |text| == 5 then ReadClock(text)
    else if |text| == 8 && text[5] == ':' then
      match (ReadClock(text[..5]), Number(text[6..]))
      case (Some(minutes), Some(seconds)) => if 0 <= seconds < 60 then Some(ToMinute(minutes) + seconds) else None
      case _ => None
    else None
  }

  const SLOT_START_FIELD := "startTime"
  const SLOT_STOP_FIELD := "stopTime"

  predicate Mentions(item: Item) {
    item.Object? && (SLOT_START_FIELD in item.fields || SLOT_STOP_FIELD in item.fields)
  }

  function FieldClock(record: Record, field: string): Option<Clock> {
    if field in record then Read(StrictClock, record[field]) else None
  }

  /** The window of a measured record. */
  function Window(item: Item): Option<TimeSlot> {
    if !item.Object? then None
    else match (FieldClock(item.fields, SLOT_START_FIELD), FieldClock(item.fields, SLOT_STOP_FIELD))
      case (Some(start), Some(stop)) => Some(TimeSlot(start, Some(stop)))
      case _ => None
  }

  predicate StartLeq(a: TimeSlot, b: TimeSlot) { a.start <= b.start }

  // ---------------------------------------------------------------------------
  // All or nothing
  // ---------------------------------------------------------------------------

  predicate Reads<T>(items: seq<Item>, read: Item -> Option<T>) { forall item <- items :: read(item).Some? }

  /** What is read of each item, where it can be read. */
  function Somes<T>(items: seq<Item>, read: Item -> Option<T>): (r: seq<T>)
    ensures Reads(items, read) ==> |r| == |items|
  {
    if items == [] then []
    else
      var n := |items| - 1;
      Somes(items[..n], read) + if read(items[n]).Some? then [read(items[n]).value] else []
  }

  /** Reads all items or none, so that no free time is silently left out. */
  method ReadEvery<T>(items: seq<Item>, read: Item -> Option<T>) returns (values: Option<seq<T>>)
    ensures values == if Reads(items, read) then Some(Somes(items, read)) else None
  {
    var found := [];
    for i := 0 to |items|
      invariant found == Somes(items[..i], read) && Reads(items[..i], read)
    {
      assert items[..i + 1][..i] == items[..i] && items[..i + 1] == items[..i] + [items[i]];
      if read(items[i]).None? {
        assert items[i] in items;
        return None;
      }
      found := found + [read(items[i]).value];
    }
    assert items[..|items|] == items;
    return Some(found);
  }

  // ---------------------------------------------------------------------------
  // A slots answer
  // ---------------------------------------------------------------------------

  function WordRead<T>(reader: Reader<T>): Item -> Option<T> {
    (item: Item) => if item.Word? then reader(item.text) else None
  }

  function FieldRead<T>(reader: Reader<T>, field: string): Item -> Option<T> {
    (item: Item) => if item.Object? && field in item.fields then Read(reader, item.fields[field]) else None
  }

  function Records(items: seq<Item>): seq<Record> {
    Map(items, (item: Item) => if item.Object? then item.fields else map[])
  }

  /** The reading an undocumented answer calls for: its words, or the one field they share. */
  ghost predicate Fits<T>(items: seq<Item>, reader: Reader<T>, read: Item -> Option<T>) {
    || ((forall item <- items :: item.Word?) && read == WordRead(reader))
    || ((forall item <- items :: item.Object?)
        && exists field :: TheField(Records(items), reader, field) && read == FieldRead(reader, field))
  }

  ghost predicate Recognised<T(!new)>(items: seq<Item>, reader: Reader<T>) {
    exists read :: Fits(items, reader, read) && Reads(items, read)
  }

  /** An undocumented answer is read exactly when one reading fits it and reads every item. */
  method ReadUndocumented<T(!new)>(items: seq<Item>, reader: Reader<T>)
    returns (values: Option<seq<T>>, ghost read: Item -> Option<T>)
    requires items != []
    ensures values.Some? <==> Recognised(items, reader)
    ensures values.Some? ==> Fits(items, reader, read) && Reads(items, read) && values.value == Somes(items, read)
  {
    read := WordRead(reader);
    if forall item <- items :: item.Word? {
      values := ReadEvery(items, WordRead(reader));
      assert Fits(items, reader, read);
    } else if exists item <- items :: !item.Object? {
      values := None;
    } else {
      var field := SingleField(Records(items), reader);
      if field.None? {
        return None, read;
      }
      read := FieldRead(reader, field.value);
      values := ReadEvery(items, FieldRead(reader, field.value));
      assert Fits(items, reader, read);
    }
  }

  /** The dates, each once, in calendar order: exactly those listed. */
  ghost predicate AreTheDates(dates: seq<Date>, listed: seq<Date>) {
    && (forall d :: d in dates <==> d in listed)
    && (forall i, j :: 0 <= i < j < |dates| ==> Ordinal(dates[i]) < Ordinal(dates[j]))
  }

  /** The dates of a days answer: those of every item, or the schema is unknown. */
  method ParseDays(items: seq<Item>, reader: Reader<Date>)
    returns (dates: Option<seq<Date>>, ghost read: Item -> Option<Date>)
    ensures dates.Some? <==> items == [] || Recognised(items, reader)
    ensures dates.Some? && items != [] ==> Fits(items, reader, read) && Reads(items, read)
    ensures dates.Some? ==> AreTheDates(dates.value, Somes(items, read))
    ensures dates.Some? ==> dates.value == Scan.ParseDays(Somes(items, read))
  {
    read := WordRead(reader);
    var listed := Some([]);
    if items != [] {
      listed, read := ReadUndocumented(items, reader);
    }
    if listed.None? {
      return None, read;
    }
    Scan.ParseDaysIs(listed.value);
    return Some(Scan.ParseDays(listed.value)), read;
  }

  predicate Measured(items: seq<Item>) { exists item <- items :: Mentions(item) }

  function Timed(starts: seq<Clock>): seq<TimeSlot> { Map(starts, (start: Clock) => TimeSlot(start, None)) }

  /** The slots in order: all of them, and nothing else. */
  ghost predicate InOrder(slots: seq<TimeSlot>, listed: seq<TimeSlot>) {
    multiset(slots) == multiset(listed) && |slots| == |listed| && Sorted(slots, StartLeq)
  }

  lemma SortedInOrder(listed: seq<TimeSlot>)
    ensures InOrder(Sort(listed, StartLeq), listed)
  {
    SortSorts(listed, StartLeq);
  }

  /** A slots answer: if some record has a start or stop field, windows, and otherwise
      start times alone.  Every item is one slot, or nothing is read. */
  method ParseSlots(items: seq<Item>, reader: Reader<Clock>)
    returns (slots: Option<seq<TimeSlot>>, ghost read: Item -> Option<Clock>)
    ensures slots.Some? <==> if Measured(items) then Reads(items, Window) else items == [] || Recognised(items, reader)
    ensures slots.Some? ==> |slots.value| == |items|
    ensures slots.Some? && Measured(items) ==> InOrder(slots.value, Somes(items, Window))
    ensures slots.Some? && !Measured(items) && items != [] ==>
              Fits(items, reader, read) && InOrder(slots.value, Timed(Somes(items, read)))
  {
    read := WordRead(reader);
    if items == [] {
      return Some([]), read;
    }
    if Measured(items) {
      var windows := ReadEvery(items, Window);
      if windows.None? {
        return None, read;
      }
      SortedInOrder(windows.value);
      return Some(Sort(windows.value, StartLeq)), read;
    }
    var starts;
    starts, read := ReadUndocumented(items, reader);
    if starts.None? {
      return None, read;
    }
    SortedInOrder(Timed(starts.value));
    return Some(Sort(Timed(starts.value), StartLeq)), read;
  }
}
