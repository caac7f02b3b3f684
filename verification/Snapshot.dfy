/**
 Snapshots of the free slots, their differences, and their stored form
 (api/availability_snapshot.py).
 */
module Snapshot {
  import opened Common
  import opened Calendar
  import opened Dicts
  import opened Sorting
  import opened Slots

  /** Slots by centre.  An empty list means that nothing was free; a missing centre, that
      nothing is known. */
  type AvailabilitySnapshot = Dict<string, seq<AvailableSlot>>

  ghost predicate Valid(s: AvailabilitySnapshot) {
    Unique(s) && forall p <- s :: forall x <- p.1 :: x.centre == p.0
  }

  /** What a snapshot says about one centre. */
  function At(s: AvailabilitySnapshot, centre: string): seq<AvailableSlot> { Find(s, centre).GetOr([]) }

  predicate Known(s: Option<AvailabilitySnapshot>, centre: string) { s.Some? && Find(s.value, centre).Some? }

  ghost function KeysAt(s: AvailabilitySnapshot, centre: string): set<SlotKey> { KeysOf(At(s, centre)) }

  /** Sorts each centre's slots; a centre listed twice counts as it was listed last. */
  function SnapshotOf(readings: seq<(string, seq<AvailableSlot>)>): AvailabilitySnapshot {
    FromPairs(Map(readings, (p: (string, seq<AvailableSlot>)) => (p.0, SortSlots(p.1))))
  }

  // ---------------------------------------------------------------------------
  // The diff
  // ---------------------------------------------------------------------------

  function SlotsIn(s: AvailabilitySnapshot, wanted: seq<string>): seq<AvailableSlot> {
    if s == [] then []
    else (if s[0].0 in wanted then s[0].1 else []) + SlotsIn(s[1..], wanted)
  }

  function ByKey(s: AvailabilitySnapshot, wanted: seq<string>): Dict<SlotKey, AvailableSlot> {
    FromPairs(Map(SlotsIn(s, wanted), x => (KeyOf(x), x)))
  }

  /** The entries of one dictionary whose key the other lacks, in report order. */
  function NewIn(here: Dict<SlotKey, AvailableSlot>, there: Dict<SlotKey, AvailableSlot>): seq<AvailableSlot> {
    SortSlots(Values(OnlyIn(here, there)))
  }

  /** The monitored centres that the scan read. */
  function Monitored(current: AvailabilitySnapshot, centres: seq<string>): seq<string> {
    Filter(centres, c => Find(current, c).Some?)
  }

  function DiffSnapshots(previous: Option<AvailabilitySnapshot>, current: AvailabilitySnapshot, centres: seq<string>)
    : AvailabilityDiff
  {
    var monitored := Monitored(current, centres);
    var comparable := Filter(monitored, c => Known(previous, c));
    var before := if previous.Some? then ByKey(previous.value, comparable) else [];
    var after := ByKey(current, comparable);
    AvailabilityDiff(NewIn(after, before), NewIn(before, after), Filter(monitored, c => !Known(previous, c)))
  }

  /** A centre this run may report on: asked about, read, and read before. */
  predicate Comparable(
    previous: Option<AvailabilitySnapshot>, current: AvailabilitySnapshot, centres: seq<string>, c: string)
  {
    c in centres && Find(current, c).Some? && Known(previous, c)
  }

  lemma {:induction false} SlotsInMembers(s: AvailabilitySnapshot, wanted: seq<string>)
    ensures forall x :: x in SlotsIn(s, wanted) <==> exists p :: p in s && p.0 in wanted && x in p.1
  {
    if s != [] {
      SlotsInMembers(s[1..], wanted);
      assert s == [s[0]] + s[1..];
    }
  }

  lemma SlotsInOfValid(s: AvailabilitySnapshot, wanted: seq<string>, x: AvailableSlot)
    requires Valid(s)
    ensures x in SlotsIn(s, wanted) <==> x.centre in wanted && x in At(s, x.centre)
  {
    SlotsInMembers(s, wanted);
    FindIsMember(s, x.centre);
    if x in SlotsIn(s, wanted) {
      var p :| p in s && p.0 in wanted && x in p.1;
      assert (x.centre, p.1) in s;
    }
    if x.centre in wanted && x in At(s, x.centre) {
      assert (x.centre, At(s, x.centre)) in s;
    }
  }

  /** The dictionary by key holds the keys of the wanted centres, each on a slot of the snapshot. */
  lemma ByKeyIs(s: AvailabilitySnapshot, wanted: seq<string>)
    requires Valid(s)
    ensures Unique(ByKey(s, wanted))
    ensures forall p <- ByKey(s, wanted) ::
              p.0 == KeyOf(p.1) && p.1.centre in wanted && p.1 in At(s, p.1.centre)
    ensures forall k :: k in Keys(ByKey(s, wanted)) <==> k.centre in wanted && k in KeysAt(s, k.centre)
  {
    var slots := SlotsIn(s, wanted);
    var pairs := Map(slots, x => (KeyOf(x), x));
    FromPairsIsDict(pairs);
    forall p | p in ByKey(s, wanted)
      ensures p.0 == KeyOf(p.1) && p.1.centre in wanted && p.1 in At(s, p.1.centre)
    {
      var i :| 0 <= i < |pairs| && pairs[i] == p;
      assert slots[i] in slots;
      SlotsInOfValid(s, wanted, p.1);
    }
    forall k ensures k in Keys(ByKey(s, wanted)) <==> k.centre in wanted && k in KeysAt(s, k.centre) {
      if k.centre in wanted && k in KeysAt(s, k.centre) {
        var x :| x in At(s, k.centre) && KeyOf(x) == k;
        SlotsInOfValid(s, wanted, x);
        var i :| 0 <= i < |slots| && slots[i] == x;
        assert pairs[i] in pairs;
      }
      if k in Keys(ByKey(s, wanted)) {
        var p :| p in ByKey(s, wanted) && p.0 == k;
        assert p.1 in At(s, p.1.centre);
      }
    }
  }

  lemma NewInIs(here: Dict<SlotKey, AvailableSlot>, there: Dict<SlotKey, AvailableSlot>)
    ensures forall x :: x in NewIn(here, there) <==> exists p :: p in here && p.1 == x && p.0 !in Keys(there)
    ensures Sorted(NewIn(here, there), SlotLeq)
  {
    var kept := OnlyIn(here, there);
    OnlyInMembers(here, there);
    SlotOrderIsTotal();
    SortSorts(Values(kept), SlotLeq);
    SortMembers(Values(kept), SlotLeq);
    forall x ensures x in NewIn(here, there) <==> exists p :: p in here && p.1 == x && p.0 !in Keys(there) {
      if x in NewIn(here, there) {
        var i :| 0 <= i < |kept| && Values(kept)[i] == x;
        assert kept[i] in kept;
      }
      if exists p :: p in here && p.1 == x && p.0 !in Keys(there) {
        var p :| p in here && p.1 == x && p.0 !in Keys(there);
        var i :| 0 <= i < |kept| && kept[i] == p;
        assert Values(kept)[i] == x;
      }
    }
  }

  /** No key is listed twice. */
  ghost predicate EachKeyOnce(xs: seq<AvailableSlot>) {
    forall i, j :: 0 <= i < j < |xs| ==> KeyOf(xs[i]) != KeyOf(xs[j])
  }

  lemma SortedKeysOnce(xs: seq<AvailableSlot>)
    requires EachKeyOnce(xs)
    ensures EachKeyOnce(SortSlots(xs))
  {
    var sorted := SortSlots(xs);
    assert NoRepeats(xs);
    SameMembersNoRepeats(xs, sorted);
    SortMembers(xs, SlotLeq);
    forall i, j | 0 <= i < j < |sorted| ensures KeyOf(sorted[i]) != KeyOf(sorted[j]) {
      assert sorted[i] in xs && sorted[j] in xs && sorted[i] != sorted[j];
    }
  }

  lemma NewInOnce(here: Dict<SlotKey, AvailableSlot>, there: Dict<SlotKey, AvailableSlot>)
    requires Unique(here) && forall p <- here :: p.0 == KeyOf(p.1)
    ensures EachKeyOnce(NewIn(here, there))
  {
    var kept := OnlyIn(here, there);
    OnlyInMembers(here, there);
    OnlyInUnique(here, there);
    forall i | 0 <= i < |kept| ensures KeyOf(Values(kept)[i]) == kept[i].0 {
      assert kept[i] in kept;
    }
    SortedKeysOnce(Values(kept));
  }

  lemma ComparableIs(
    previous: Option<AvailabilitySnapshot>, current: AvailabilitySnapshot, centres: seq<string>, c: string)
    ensures c in Filter(Monitored(current, centres), x => Known(previous, x)) <==>
            Comparable(previous, current, centres, c)
    ensures c in DiffSnapshots(previous, current, centres).baselined <==>
            c in centres && Find(current, c).Some? && !Known(previous, c)
  {
    FilterMembers(centres, x => Find(current, x).Some?);
    FilterMembers(Monitored(current, centres), x => Known(previous, x));
    FilterMembers(Monitored(current, centres), x => !Known(previous, x));
  }

  ghost function KeysBefore(previous: Option<AvailabilitySnapshot>, c: string): set<SlotKey> {
    if previous.Some? then KeysAt(previous.value, c) else {}
  }

  /** Exactly what a diff reports: at a comparable centre, the keys only one side has. */
  lemma DiffIs(previous: Option<AvailabilitySnapshot>, current: AvailabilitySnapshot, centres: seq<string>)
    requires Valid(current) && (previous.Some? ==> Valid(previous.value))
    ensures var diff := DiffSnapshots(previous, current, centres);
            && (forall k :: k in KeysOf(diff.added) <==>
                  Comparable(previous, current, centres, k.centre)
                  && k in KeysAt(current, k.centre) && k !in KeysBefore(previous, k.centre))
            && (forall k :: k in KeysOf(diff.removed) <==>
                  Comparable(previous, current, centres, k.centre)
                  && k in KeysBefore(previous, k.centre) && k !in KeysAt(current, k.centre))
            && (forall x <- diff.added :: x in At(current, x.centre))
            && (forall x <- diff.removed :: previous.Some? && x in At(previous.value, x.centre))
            && Sorted(diff.added, SlotLeq) && Sorted(diff.removed, SlotLeq)
            && EachKeyOnce(diff.added) && EachKeyOnce(diff.removed)
            && (forall c :: c in diff.baselined <==>
                  c in centres && Find(current, c).Some? && !Known(previous, c))
  {
    var comparable := Filter(Monitored(current, centres), c => Known(previous, c));
    var before := if previous.Some? then ByKey(previous.value, comparable) else [];
    var after := ByKey(current, comparable);
    forall c
      ensures c in comparable <==> Comparable(previous, current, centres, c)
      ensures c in DiffSnapshots(previous, current, centres).baselined <==>
              c in centres && Find(current, c).Some? && !Known(previous, c)
    {
      ComparableIs(previous, current, centres, c);
    }
    ByKeyIs(current, comparable);
    if previous.Some? {
      ByKeyIs(previous.value, comparable);
    }
    NewInIs(after, before);
    NewInIs(before, after);
    NewInKeys(after, before);
    NewInKeys(before, after);
    NewInOnce(after, before);
    NewInOnce(before, after);
  }

  lemma NewInKeys(here: Dict<SlotKey, AvailableSlot>, there: Dict<SlotKey, AvailableSlot>)
    requires forall p <- here :: p.0 == KeyOf(p.1)
    ensures forall k :: k in KeysOf(NewIn(here, there)) <==> k in Keys(here) && k !in Keys(there)
  {
    NewInIs(here, there);
    forall k ensures k in KeysOf(NewIn(here, there)) <==> k in Keys(here) && k !in Keys(there) {
      if k in Keys(here) && k !in Keys(there) {
        var p :| p in here && p.0 == k;
        assert p.1 in NewIn(here, there);
      }
    }
  }

  ghost function AtCentre(keys: set<SlotKey>, c: string): set<SlotKey> { set k <- keys | k.centre == c }

  lemma KeysAtAreThere(s: AvailabilitySnapshot, c: string)
    requires Valid(s)
    ensures forall k <- KeysAt(s, c) :: k.centre == c
  {
    FindIsMember(s, c);
    if Find(s, c).Some? {
      assert (c, At(s, c)) in s;
    }
  }

  /** Replaying a diff onto what was known of a comparable centre gives what is known now. */
  lemma DiffReplays(
    previous: Option<AvailabilitySnapshot>, current: AvailabilitySnapshot, centres: seq<string>, c: string)
    requires Valid(current) && (previous.Some? ==> Valid(previous.value))
    requires Comparable(previous, current, centres, c)
    ensures var diff := DiffSnapshots(previous, current, centres);
            KeysAt(current, c) ==
            (KeysBefore(previous, c) - AtCentre(KeysOf(diff.removed), c)) + AtCentre(KeysOf(diff.added), c)
  {
    DiffIs(previous, current, centres);
    KeysAtAreThere(current, c);
    KeysAtAreThere(previous.value, c);
    var diff := DiffSnapshots(previous, current, centres);
    forall k: SlotKey | k.centre == c
      ensures k in KeysAt(current, c) <==>
              (k in KeysBefore(previous, c) && k !in AtCentre(KeysOf(diff.removed), c))
              || k in AtCentre(KeysOf(diff.added), c)
    {
    }
  }

  function Pairs(readings: seq<(string, seq<AvailableSlot>)>): seq<(string, seq<AvailableSlot>)> {
    Map(readings, (p: (string, seq<AvailableSlot>)) => (p.0, SortSlots(p.1)))
  }

  lemma PairsAre(readings: seq<(string, seq<AvailableSlot>)>)
    ensures forall p <- Pairs(readings) :: exists r :: r in readings && p == (r.0, SortSlots(r.1))
    ensures (set p <- Pairs(readings) :: p.0) == (set r <- readings :: r.0)
  {
  }

  lemma SnapshotOfIs(readings: seq<(string, seq<AvailableSlot>)>)
    ensures Unique(SnapshotOf(readings)) && Keys(SnapshotOf(readings)) == set r <- readings :: r.0
    ensures forall p <- SnapshotOf(readings) :: exists r :: r in readings && p == (r.0, SortSlots(r.1))
  {
    PairsAre(readings);
    FromPairsIsDict(Pairs(readings));
    assert SnapshotOf(readings) == FromPairs(Pairs(readings));
  }

  lemma SnapshotOfIsValid(readings: seq<(string, seq<AvailableSlot>)>)
    requires forall r <- readings :: forall x <- r.1 :: x.centre == r.0
    ensures Valid(SnapshotOf(readings))
  {
    SnapshotOfIs(readings);
    forall p | p in SnapshotOf(readings) ensures forall x <- p.1 :: x.centre == p.0 {
      var r :| r in readings && p == (r.0, SortSlots(r.1));
      SortMembers(r.1, SlotLeq);
    }
  }

  lemma SnapshotOfIsInOrder(readings: seq<(string, seq<AvailableSlot>)>)
    ensures forall p <- SnapshotOf(readings) :: Sorted(p.1, SlotLeq)
  {
    SnapshotOfIs(readings);
    forall p | p in SnapshotOf(readings) ensures Sorted(p.1, SlotLeq) {
      var r :| r in readings && p == (r.0, SortSlots(r.1));
      SlotsAreSorted(r.1);
    }
  }

  // ---------------------------------------------------------------------------
  // The stored document
  // ---------------------------------------------------------------------------

  datatype StoredTime = StoredTime(start: string, end: Option<string>)

  type StoredDays = Dict<string, seq<StoredTime>>

  type Document = Dict<string, StoredDays>

  function Stored(s: AvailableSlot): StoredTime {
    StoredTime(FormatClock(s.start), if s.end.Some? then Some(FormatClock(s.end.value)) else None)
  }

  /** `setdefault(day, []).append(entry)` */
  function Append(days: StoredDays, day: string, entry: StoredTime): StoredDays {
    Put(days, day, Find(days, day).GetOr([]) + [entry])
  }

  function Grouped(slots: seq<AvailableSlot>): StoredDays {
    if slots == [] then []
    else Append(Grouped(slots[..|slots| - 1]), IsoDate(slots[|slots| - 1].date), Stored(slots[|slots| - 1]))
  }

  method ByDate(slots: seq<AvailableSlot>) returns (days: StoredDays)
    ensures days == Grouped(SortSlots(slots))
  {
    var sorted := SortSlots(slots);
    days := [];
    for i := 0 to |sorted|
      invariant days == Grouped(sorted[..i])
    {
      assert sorted[..i + 1][..i] == sorted[..i];
      days := Append(days, IsoDate(sorted[i].date), Stored(sorted[i]));
    }
    assert sorted[..|sorted|] == sorted;
  }

  function ReadSlot(centre: string, day: Date, entry: StoredTime): Option<AvailableSlot> {
    match ReadClock(entry.start)
    case None => None
    case Some(start) =>
      Some(AvailableSlot(centre, day, start, if entry.end.Some? then ReadClock(entry.end.value) else None))
  }

  function ReadEntries(centre: string, day: Date, entries: seq<StoredTime>): seq<AvailableSlot> {
    if entries == [] then []
    else
      var before := ReadEntries(centre, day, entries[..|entries| - 1]);
      match ReadSlot(centre, day, entries[|entries| - 1])
      case None => before
      case Some(s) => before + [s]
  }

  function ReadDay(centre: string, day: (string, seq<StoredTime>)): seq<AvailableSlot> {
    match ReadIsoDate(day.0)
    case None => []
    case Some(date) => ReadEntries(centre, date, day.1)
  }

  function ReadDays(centre: string, days: StoredDays): seq<AvailableSlot> {
    if days == [] then [] else ReadDays(centre, days[..|days| - 1]) + ReadDay(centre, days[|days| - 1])
  }

  /** The document a snapshot is stored as. */
  function SavedForm(s: AvailabilitySnapshot): Document {
    if s == [] then []
    else SavedForm(s[..|s| - 1]) + [(s[|s| - 1].0, Grouped(SortSlots(s[|s| - 1].1)))]
  }

  /** The snapshot a document is read as. */
  function LoadedForm(doc: Document): AvailabilitySnapshot {
    if doc == [] then []
    else LoadedForm(doc[..|doc| - 1]) + [(doc[|doc| - 1].0, SortSlots(ReadDays(doc[|doc| - 1].0, doc[|doc| - 1].1)))]
  }

  /** What a snapshot has become once it was stored and loaded again. */
  function Persisted(s: AvailabilitySnapshot): AvailabilitySnapshot { LoadedForm(SavedForm(s)) }

  lemma StoredReadsBack(s: AvailableSlot)
    ensures ReadSlot(s.centre, s.date, Stored(s)) == Some(Truncated(s))
  {
    ClockReadsBack(s.start);
    if s.end.Some? {
      ClockReadsBack(s.end.value);
    }
  }

  /** Days are listed in order, the last one still being filled. */
  ghost predicate LastDayIs(days: StoredDays, slots: seq<AvailableSlot>) {
    && Unique(days) && (slots == [] <==> days == [])
    && (slots != [] ==> days[|days| - 1].0 == IsoDate(slots[|slots| - 1].date))
    && (forall k <- Keys(days) :: exists s :: s in slots && k == IsoDate(s.date))
  }

  lemma {:induction false} FindLast<K, V>(d: Dict<K, V>, k: K, v: V, w: V)
    requires Unique(d + [(k, v)])
    ensures Find(d + [(k, v)], k) == Some(v)
    ensures Put(d + [(k, v)], k, w) == d + [(k, w)]
  {
    if d == [] {
      assert d + [(k, v)] == [(k, v)];
    } else {
      UniqueTail(d + [(k, v)]);
      assert (d + [(k, v)])[1..] == d[1..] + [(k, v)];
      assert (k, v) in d[1..] + [(k, v)];
      FindLast(d[1..], k, v, w);
    }
  }

  lemma IsoDateIdentifies(a: Date, b: Date)
    ensures IsoDate(a) == IsoDate(b) ==> a == b
  {
    IsoDateReadsBack(a);
    IsoDateReadsBack(b);
  }

  /** One centre's slots in report order: equal dates are neighbours. */
  lemma EqualDatesTouch(all: seq<AvailableSlot>, i: nat, n: nat, centre: string)
    requires Sorted(all, SlotLeq) && i < n < |all| && forall s <- all :: s.centre == centre
    requires all[i].date == all[n].date
    ensures all[n - 1].date == all[n].date
  {
    if i < n - 1 {
      assert SlotLeq(all[i], all[n - 1]) && SlotLeq(all[n - 1], all[n]);
      assert all[i].centre == all[n - 1].centre == all[n].centre;
      OrdinalIdentifies(all[n - 1].date, all[n].date);
    }
  }

  /** In report order, a date already filed is the date being filed. */
  lemma FiledDateIsLast(slots: seq<AvailableSlot>, next: AvailableSlot, centre: string, days: StoredDays)
    requires LastDayIs(days, slots) && Sorted(slots + [next], SlotLeq) && forall s <- slots + [next] :: s.centre == centre
    requires IsoDate(next.date) in Keys(days)
    ensures days != [] && days[|days| - 1].0 == IsoDate(next.date)
  {
    var s :| s in slots && IsoDate(next.date) == IsoDate(s.date);
    IsoDateIdentifies(next.date, s.date);
    var i :| 0 <= i < |slots| && slots[i] == s;
    assert (slots + [next])[i] == s && (slots + [next])[|slots|] == next;
    EqualDatesTouch(slots + [next], i, |slots|, centre);
    assert (slots + [next])[|slots| - 1] == slots[|slots| - 1];
  }

  lemma ReadEntriesSnoc(centre: string, day: Date, entries: seq<StoredTime>, s: AvailableSlot)
    requires s.centre == centre && s.date == day
    ensures ReadEntries(centre, day, entries + [Stored(s)]) == ReadEntries(centre, day, entries) + [Truncated(s)]
  {
    assert (entries + [Stored(s)])[..|entries|] == entries;
    StoredReadsBack(s);
  }

  lemma AppendKeepsLastDay(slots: seq<AvailableSlot>, next: AvailableSlot, days: StoredDays)
    requires LastDayIs(days, slots)
    requires IsoDate(next.date) in Keys(days) ==> days != [] && days[|days| - 1].0 == IsoDate(next.date)
    ensures forall filed | filed == Append(days, IsoDate(next.date), Stored(next)) ::
              LastDayIs(filed, slots + [next])
  {
    var day := IsoDate(next.date);
    var entries := Find(days, day).GetOr([]) + [Stored(next)];
    PutKeys(days, day, entries);
    PutUnique(days, day, entries);
    AppendShape(days, day, entries);
    forall k | k in Keys(Put(days, day, entries)) ensures exists s :: s in slots + [next] && k == IsoDate(s.date) {
      if k in Keys(days) {
        var s :| s in slots && k == IsoDate(s.date);
        assert s in slots + [next];
      } else {
        assert next in slots + [next];
      }
    }
  }

  lemma AppendShape(days: StoredDays, day: string, entries: seq<StoredTime>)
    requires Unique(days) && (day in Keys(days) ==> days != [] && days[|days| - 1].0 == day)
    ensures Put(days, day, entries) == (if day in Keys(days) then days[..|days| - 1] else days) + [(day, entries)]
  {
    if day in Keys(days) {
      var n := |days| - 1;
      assert days == days[..n] + [(day, days[n].1)];
      FindLast(days[..n], day, days[n].1, entries);
    } else {
      NotAKey(days, day);
      PutNew(days, day, entries);
    }
  }

  lemma FiledWithItsDay(next: AvailableSlot, centre: string, days: StoredDays, filed: seq<StoredTime>)
    requires next.centre == centre
    ensures ReadDays(centre, days + [(IsoDate(next.date), filed + [Stored(next)])])
            == ReadDays(centre, days + [(IsoDate(next.date), filed)]) + [Truncated(next)]
  {
    var day := IsoDate(next.date);
    IsoDateReadsBack(next.date);
    ReadEntriesSnoc(centre, next.date, filed, next);
    Associative(ReadDays(centre, days), ReadEntries(centre, next.date, filed), [Truncated(next)]);
  }

  lemma FiledOnANewDay(next: AvailableSlot, centre: string, days: StoredDays)
    requires next.centre == centre
    ensures ReadDays(centre, days + [(IsoDate(next.date), [] + [Stored(next)])]) == ReadDays(centre, days) + [Truncated(next)]
  {
    IsoDateReadsBack(next.date);
    ReadEntriesSnoc(centre, next.date, [], next);
  }

  /** Filing one more slot adds that slot, without its seconds, to what is read back. */
  lemma AppendReads(next: AvailableSlot, centre: string, days: StoredDays)
    requires Unique(days) && next.centre == centre
    requires IsoDate(next.date) in Keys(days) ==> days != [] && days[|days| - 1].0 == IsoDate(next.date)
    ensures ReadDays(centre, Append(days, IsoDate(next.date), Stored(next)))
            == ReadDays(centre, days) + [Truncated(next)]
  {
    var day := IsoDate(next.date);
    FindIsMember(days, day);
    AppendShape(days, day, Find(days, day).GetOr([]) + [Stored(next)]);
    if day in Keys(days) {
      var n := |days| - 1;
      var filed := days[n].1;
      assert days == days[..n] + [(day, filed)];
      FindLast(days[..n], day, filed, filed);
      FiledWithItsDay(next, centre, days[..n], filed);
    } else {
      FiledOnANewDay(next, centre, days);
    }
  }

  /** The days of `slots` are filed, and read back as what was filed. */
  ghost predicate Filed(days: StoredDays, slots: seq<AvailableSlot>, centre: string) {
    LastDayIs(days, slots) && ReadDays(centre, days) == Map(slots, Truncated)
  }

  lemma GroupedReadsOneMore(slots: seq<AvailableSlot>, next: AvailableSlot, centre: string, days: StoredDays)
    requires Filed(days, slots, centre)
    requires Sorted(slots + [next], SlotLeq) && forall s <- slots + [next] :: s.centre == centre
    ensures Filed(Append(days, IsoDate(next.date), Stored(next)), slots + [next], centre)
  {
    if IsoDate(next.date) in Keys(days) {
      FiledDateIsLast(slots, next, centre, days);
    }
    AppendKeepsLastDay(slots, next, days);
    assert next in slots + [next];
    AppendReads(next, centre, days);
  }

  lemma {:induction false} GroupedReads(slots: seq<AvailableSlot>, centre: string)
    requires Sorted(slots, SlotLeq) && forall s <- slots :: s.centre == centre
    ensures LastDayIs(Grouped(slots), slots)
    ensures ReadDays(centre, Grouped(slots)) == Map(slots, Truncated)
  {
    if slots != [] {
      var n := |slots| - 1;
      assert slots == slots[..n] + [slots[n]];
      assert forall s <- slots[..n] :: s in slots;
      GroupedReads(slots[..n], centre);
      GroupedReadsOneMore(slots[..n], slots[n], centre, Grouped(slots[..n]));
    }
  }

  /** Dropping seconds keeps the order. */
  lemma TruncatedStaysSorted(slots: seq<AvailableSlot>)
    requires Sorted(slots, SlotLeq)
    ensures Sorted(Map(slots, Truncated), SlotLeq)
  {
    forall i, j | 0 <= i < j < |slots| ensures SlotLeq(Truncated(slots[i]), Truncated(slots[j])) {
      assert SlotLeq(slots[i], slots[j]);
      assert slots[i].start <= slots[j].start ==> ToMinute(slots[i].start) <= ToMinute(slots[j].start);
    }
  }

  lemma OneCentrePersists(centre: string, slots: seq<AvailableSlot>)
    requires forall s <- slots :: s.centre == centre
    ensures SortSlots(ReadDays(centre, Grouped(SortSlots(slots)))) == Map(SortSlots(slots), Truncated)
  {
    SlotsAreSorted(slots);
    SortMembers(slots, SlotLeq);
    GroupedReads(SortSlots(slots), centre);
    TruncatedStaysSorted(SortSlots(slots));
    SortOfSorted(Map(SortSlots(slots), Truncated), SlotLeq);
  }

  function MinuteEntry(p: (string, seq<AvailableSlot>)): (string, seq<AvailableSlot>) {
    (p.0, Map(SortSlots(p.1), Truncated))
  }

  /** The same centres, each with the same slots in order but without their seconds. */
  function InMinutes(s: AvailabilitySnapshot): AvailabilitySnapshot { Map(s, MinuteEntry) }

  /** Storing and loading loses the seconds and nothing else; a centre with nothing free
      comes back with nothing free. */
  lemma {:induction false} PersistedIs(s: AvailabilitySnapshot)
    requires forall p <- s :: forall x <- p.1 :: x.centre == p.0
    ensures Persisted(s) == InMinutes(s)
  {
    if s != [] {
      var n := |s| - 1;
      assert s == s[..n] + [s[n]] && s[n] in s;
      PersistedIs(s[..n]);
      OneMoreCentrePersists(s[..n], s[n]);
    }
  }

  lemma OneMoreCentrePersists(s: AvailabilitySnapshot, last: (string, seq<AvailableSlot>))
    requires Persisted(s) == InMinutes(s) && forall x <- last.1 :: x.centre == last.0
    ensures Persisted(s + [last]) == InMinutes(s + [last])
  {
    assert (s + [last])[..|s|] == s;
    OneCentrePersists(last.0, last.1);
    LoadedSnoc(SavedForm(s), (last.0, Grouped(SortSlots(last.1))));
    assert Map([last], MinuteEntry) == [MinuteEntry(last)];
  }

  lemma LoadedSnoc(doc: Document, last: (string, StoredDays))
    ensures LoadedForm(doc + [last]) == LoadedForm(doc) + [(last.0, SortSlots(ReadDays(last.0, last.1)))]
  {
  }

  lemma {:induction false} InMinutesAt(s: AvailabilitySnapshot, c: string)
    ensures Find(InMinutes(s), c).Some? <==> Find(s, c).Some?
    ensures At(InMinutes(s), c) == Map(SortSlots(At(s, c)), Truncated)
  {
    if s != [] {
      assert InMinutes(s)[1..] == InMinutes(s[1..]);
      InMinutesAt(s[1..], c);
    }
  }

  lemma MinuteEntryStays(p: (string, seq<AvailableSlot>))
    requires forall x <- p.1 :: x.centre == p.0
    ensures forall x <- MinuteEntry(p).1 :: x.centre == p.0
  {
    SortMembers(p.1, SlotLeq);
    var sorted := SortSlots(p.1);
    forall x | x in MinuteEntry(p).1 ensures x.centre == p.0 {
      var k :| 0 <= k < |sorted| && Map(sorted, Truncated)[k] == x;
      assert sorted[k] in sorted;
    }
  }

  lemma PersistedIsValid(s: AvailabilitySnapshot)
    requires Valid(s)
    ensures Valid(Persisted(s))
  {
    PersistedIs(s);
    var t := InMinutes(s);
    forall i, j | 0 <= i < j < |t| ensures t[i].0 != t[j].0 {
      assert s[i].0 != s[j].0;
    }
    forall p | p in t ensures forall x <- p.1 :: x.centre == p.0 {
      var i :| 0 <= i < |t| && t[i] == p;
      assert s[i] in s;
      MinuteEntryStays(s[i]);
    }
  }

  function MinuteKey(k: SlotKey): SlotKey { k.(start := ToMinute(k.start)) }

  function MinuteKeys(keys: set<SlotKey>): set<SlotKey> { set k <- keys :: MinuteKey(k) }

  ghost predicate OnMinutes(keys: set<SlotKey>) { forall k <- keys :: WholeMinute(k.start) }

  lemma MinuteKeysAreOnMinutes(keys: set<SlotKey>)
    ensures OnMinutes(MinuteKeys(keys))
    ensures OnMinutes(keys) ==> MinuteKeys(keys) == keys
  {
    if OnMinutes(keys) {
      assert forall k <- keys :: MinuteKey(k) == k;
    }
  }

  lemma KeysInMinutes(xs: seq<AvailableSlot>)
    ensures KeysOf(Map(xs, Truncated)) == MinuteKeys(KeysOf(xs))
  {
    var ys := Map(xs, Truncated);
    forall k | k in KeysOf(ys) ensures k in MinuteKeys(KeysOf(xs)) {
      var i :| 0 <= i < |ys| && KeyOf(ys[i]) == k;
      assert xs[i] in xs && MinuteKey(KeyOf(xs[i])) == k;
    }
    forall x | x in xs ensures MinuteKey(KeyOf(x)) in KeysOf(ys) {
      var i :| 0 <= i < |xs| && xs[i] == x;
      assert ys[i] in ys;
    }
  }

  lemma PersistedKeys(s: AvailabilitySnapshot, c: string)
    requires Valid(s)
    ensures KeysAt(Persisted(s), c) == MinuteKeys(KeysAt(s, c))
    ensures Find(Persisted(s), c).Some? <==> Find(s, c).Some?
  {
    PersistedIs(s);
    InMinutesAt(s, c);
    KeysInMinutes(SortSlots(At(s, c)));
    SlotsAreSorted(At(s, c));
  }

  lemma AddedIs(
    previous: Option<AvailabilitySnapshot>, current: AvailabilitySnapshot, centres: seq<string>, k: SlotKey)
    requires Valid(current) && (previous.Some? ==> Valid(previous.value))
    requires Comparable(previous, current, centres, k.centre)
    requires k in KeysAt(current, k.centre) && k !in KeysBefore(previous, k.centre)
    ensures k in KeysOf(DiffSnapshots(previous, current, centres).added)
  {
    DiffIs(previous, current, centres);
  }

  ghost predicate StartsOnMinutes(s: AvailabilitySnapshot, centres: seq<string>) {
    forall c <- centres :: OnMinutes(KeysAt(s, c))
  }

  lemma OnMinutesPersists(s: AvailabilitySnapshot, c: string)
    requires Valid(s) && StartsOnMinutes(s, [c])
    ensures KeysAt(Persisted(s), c) == KeysAt(s, c)
  {
    PersistedKeys(s, c);
    assert c in [c];
    MinuteKeysAreOnMinutes(KeysAt(s, c));
  }

  lemma RescanOnMinutesIsSilent(s: AvailabilitySnapshot, centres: seq<string>)
    requires Valid(s) && StartsOnMinutes(s, centres)
    ensures !DiffSnapshots(Some(Persisted(s)), s, centres).Changed()
  {
    var diff := DiffSnapshots(Some(Persisted(s)), s, centres);
    PersistedIsValid(s);
    DiffIs(Some(Persisted(s)), s, centres);
    forall c | c in centres ensures KeysAt(Persisted(s), c) == KeysAt(s, c) {
      OnMinutesPersists(s, c);
    }
    SlotsHaveKeys(diff.added);
    SlotsHaveKeys(diff.removed);
  }

  lemma PersistedOnMinutes(s: AvailabilitySnapshot, k: SlotKey)
    requires Valid(s) && k in KeysAt(s, k.centre) && !WholeMinute(k.start)
    ensures k !in KeysAt(Persisted(s), k.centre)
    ensures Find(s, k.centre).Some? && Find(Persisted(s), k.centre).Some?
  {
    PersistedKeys(s, k.centre);
  }

  lemma RescanOffMinutesIsNot(s: AvailabilitySnapshot, centres: seq<string>, k: SlotKey)
    requires Valid(s) && k.centre in centres && k in KeysAt(s, k.centre) && !WholeMinute(k.start)
    ensures DiffSnapshots(Some(Persisted(s)), s, centres).Changed()
  {
    PersistedIsValid(s);
    PersistedOnMinutes(s, k);
    AddedIs(Some(Persisted(s)), s, centres, k);
    SlotsHaveKeys(DiffSnapshots(Some(Persisted(s)), s, centres).added);
  }

  /** Scanning the same availability again is silent exactly when every monitored start
      is a whole minute.  A start with seconds is announced again by every run. */
  lemma RescanIsSilentIff(s: AvailabilitySnapshot, centres: seq<string>)
    requires Valid(s)
    ensures !DiffSnapshots(Some(Persisted(s)), s, centres).Changed() <==> StartsOnMinutes(s, centres)
  {
    if StartsOnMinutes(s, centres) {
      RescanOnMinutesIsSilent(s, centres);
    } else {
      var c :| c in centres && !OnMinutes(KeysAt(s, c));
      var k :| k in KeysAt(s, c) && !WholeMinute(k.start);
      KeysAtAreThere(s, c);
      RescanOffMinutesIsNot(s, centres, k);
    }
  }

  /** Such a snapshot: one time with seconds, scanned again without any change. */
  lemma SecondsAreAnnouncedAgain(s: AvailabilitySnapshot)
    requires s == [("1", [AvailableSlot("1", Day(2026, 8, 1), 36030, None)])]
    ensures DiffSnapshots(Some(Persisted(s)), s, ["1"]).Changed()
  {
    var x := AvailableSlot("1", Day(2026, 8, 1), 36030, None);
    assert At(s, "1") == [x] && x in At(s, "1");
    RescanOffMinutesIsNot(s, ["1"], KeyOf(x));
  }

  lemma SlotsHaveKeys(xs: seq<AvailableSlot>)
    ensures KeysOf(xs) == {} <==> xs == []
  {
    if xs != [] {
      assert KeyOf(xs[0]) in KeysOf(xs);
    }
  }

  /** The document in the database, or none yet. */
  class MongoAvailabilitySnapshotStore {
    var document: Option<Document>

    constructor ()
      ensures document == None
    {
      document := None;
    }

    /** One replacement of the whole document, or no change at all. */
    method Save(snapshot: AvailabilitySnapshot, reachable: bool) returns (saved: bool)
      modifies this
      ensures saved == reachable
      ensures document == if saved then Some(SavedForm(snapshot)) else old(document)
    {
      var centres: Document := [];
      for i := 0 to |snapshot|
        invariant centres == SavedForm(snapshot[..i]) && document == old(document)
      {
        assert snapshot[..i + 1][..i] == snapshot[..i];
        var days := ByDate(snapshot[i].1);
        centres := centres + [(snapshot[i].0, days)];
      }
      assert snapshot[..|snapshot|] == snapshot;
      if reachable {
        document := Some(centres);
      }
      return reachable;
    }

    method Load() returns (snapshot: Option<AvailabilitySnapshot>)
      ensures snapshot == if document.Some? then Some(LoadedForm(document.value)) else None
    {
      if document.None? {
        return None;
      }
      var doc := document.value;
      var centres: AvailabilitySnapshot := [];
      for i := 0 to |doc|
        invariant centres == LoadedForm(doc[..i])
      {
        assert doc[..i + 1][..i] == doc[..i];
        var slots := ReadCentre(doc[i].0, doc[i].1);
        centres := centres + [(doc[i].0, SortSlots(slots))];
      }
      assert doc[..|doc|] == doc;
      return Some(centres);
    }

    static method ReadCentre(centre: string, days: StoredDays) returns (slots: seq<AvailableSlot>)
      ensures slots == ReadDays(centre, days)
    {
      slots := [];
      for i := 0 to |days|
        invariant slots == ReadDays(centre, days[..i])
      {
        assert days[..i + 1][..i] == days[..i];
        slots := slots + ReadDay(centre, days[i]);
      }
      assert days[..|days|] == days;
    }
  }
}
