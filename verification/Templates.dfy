/**
 The availability messages (notifications/templates_uk.py): one block per centre,
 split into messages by `Chunking`, and read back by `Reader`.
 */
module Templates {
  import opened Common
  import opened Calendar
  import opened Slots
  import opened Text
  import opened Reader
  import opened Chunking

  // ---------------------------------------------------------------------------
  // Lines
  // ---------------------------------------------------------------------------

  function CentreTitle(centre: string): string { CENTRE_PREFIX + centre }

  function DateLine(day: Date): string { CALENDAR_SIGN + " " + FormatDate(day) }

  function FormatSlot(s: AvailableSlot): string {
    FormatClock(s.start) + if s.end.None? then "" else [RANGE_DASH] + FormatClock(s.end.value)
  }

  function SlotLine(mark: Mark, s: AvailableSlot): string { [mark.Sign(), ' '] + FormatSlot(s) }

  /** What one slot becomes for a reader. */
  function Entries(mark: Mark, slots: seq<AvailableSlot>): seq<Entry> {
    if slots == [] then [] else [Entry(mark, Truncated(slots[0]))] + Entries(mark, slots[1..])
  }

  lemma {:induction false} EntriesAppend(mark: Mark, a: seq<AvailableSlot>, b: seq<AvailableSlot>)
    ensures Entries(mark, a + b) == Entries(mark, a) + Entries(mark, b)
  {
    if a == [] {
      assert a + b == b;
    } else {
      assert (a + b)[1..] == a[1..] + b;
      EntriesAppend(mark, a[1..], b);
    }
  }

  lemma {:induction false} EntriesMarked(mark: Mark, slots: seq<AvailableSlot>, other: Mark)
    ensures SlotsMarked(Entries(mark, slots), other) == if mark == other then Map(slots, Truncated) else []
  {
    if slots != [] {
      EntriesMarked(mark, slots[1..], other);
      assert Map(slots, Truncated) == [Truncated(slots[0])] + Map(slots[1..], Truncated);
    }
  }

  lemma RangeReads(start: string, end: string)
    requires |start| == 5 && |end| == 5
    ensures ReadTimes(start) == match ReadClock(start)
                                case None => None
                                case Some(t) => Some((t, None))
    ensures ReadTimes(start + ([RANGE_DASH] + end)) ==
            match (ReadClock(start), ReadClock(end))
            case (Some(t), Some(u)) => Some((t, Some(u)))
            case _ => None
  {
    var s := start + ([RANGE_DASH] + end);
    assert s[..5] == start && s[6..] == end && s[5] == RANGE_DASH;
  }

  lemma SlotTimesRead(s: AvailableSlot)
    ensures ReadTimes(FormatSlot(s)) == Some((Truncated(s).start, Truncated(s).end))
  {
    ClockReadsBack(s.start);
    if s.end.Some? {
      ClockReadsBack(s.end.value);
      RangeReads(FormatClock(s.start), FormatClock(s.end.value));
    } else {
      RangeReads(FormatClock(s.start), FormatClock(s.start));
      assert FormatClock(s.start) + "" == FormatClock(s.start);
    }
  }

  lemma SlotIsOneLine(s: AvailableSlot)
    ensures OneLine(FormatSlot(s))
  {
  }

  /** A line that starts with a sign is read as a slot. */
  lemma SignedLineIsSlotLine(base: Option<Mark>, r: Reading, mark: Mark, times: string)
    requires r.Reading?
    ensures ReadLine(base, r, [mark.Sign(), ' '] + times) == ReadSlotLine(r, [mark.Sign(), ' '] + times)
  {
  }

  lemma SlotLineReads(base: Option<Mark>, r: Reading, mark: Mark, s: AvailableSlot)
    requires r.Reading? && r.centre == Some(s.centre) && r.day == Some(s.date) && r.section == Some(mark)
    ensures ReadLine(base, r, SlotLine(mark, s)) == r.(entries := r.entries + [Entry(mark, Truncated(s))])
  {
    SlotTimesRead(s);
    SignedLineIsSlotLine(base, r, mark, FormatSlot(s));
    var line := SlotLine(mark, s);
    assert line[2..] == FormatSlot(s) && line[0] == mark.Sign() && line[1] == ' ';
    assert ReadSign(mark.Sign()) == Some(mark);
  }

  lemma DateLineReads(base: Option<Mark>, r: Reading, day: Date)
    requires r.Reading? && r.centre.Some? && r.section.Some?
    ensures ReadLine(base, r, DateLine(day)) == r.(day := Some(day)) && OneLine(DateLine(day))
  {
    var line := DateLine(day);
    assert line[0] == CALENDAR_SIGN[0] && line[1] == ' ';
    assert StartsWith(line, CALENDAR_SIGN);
    assert line[2..] == FormatDate(day);
    DateReadsBack(day);
  }

  // ---------------------------------------------------------------------------
  // One centre
  // ---------------------------------------------------------------------------

  /** The dates and slots of one centre; a date is named when it changes. */
  function DateLines(slots: seq<AvailableSlot>, mark: Mark): seq<string> {
    if slots == [] then []
    else
      var n := |slots| - 1;
      DateLines(slots[..n], mark) + NamedDate(slots[..n], slots[n].date) + [SlotLine(mark, slots[n])]
  }

  function NamedDate(before: seq<AvailableSlot>, day: Date): seq<string> {
    if before != [] && before[|before| - 1].date == day then [] else [DateLine(day)]
  }

  method DateLinesOf(slots: seq<AvailableSlot>, mark: Mark) returns (lines: seq<string>)
    ensures lines == DateLines(slots, mark)
  {
    lines := [];
    var named: Option<Date> := None;
    for i := 0 to |slots|
      invariant lines == DateLines(slots[..i], mark)
      invariant named == if i == 0 then None else Some(slots[i - 1].date)
    {
      assert slots[..i + 1][..i] == slots[..i];
      if named != Some(slots[i].date) {
        lines := lines + [DateLine(slots[i].date)];
        named := Some(slots[i].date);
      }
      lines := lines + [SlotLine(mark, slots[i])];
    }
    assert slots[..|slots|] == slots;
  }

  predicate AllAt(centre: string, slots: seq<AvailableSlot>) { forall s <- slots :: s.centre == centre }

  lemma NamedDateReads(base: Option<Mark>, r: Reading, before: seq<AvailableSlot>, day: Date)
    requires r.Reading? && r.centre.Some? && r.section.Some?
    requires r.day == if before == [] then None else Some(before[|before| - 1].date)
    ensures ReadLines(base, r, NamedDate(before, day)) == r.(day := Some(day))
  {
    DateLineReads(base, r, day);
    ReadLinesSnoc(base, r, [], DateLine(day));
    assert [] + [DateLine(day)] == [DateLine(day)];
  }

  lemma NextSlotReads(base: Option<Mark>, r: Reading, before: seq<AvailableSlot>, s: AvailableSlot, mark: Mark)
    requires r.Reading? && r.centre == Some(s.centre) && r.section == Some(mark)
    requires r.day == if before == [] then None else Some(before[|before| - 1].date)
    ensures ReadLines(base, r, NamedDate(before, s.date) + [SlotLine(mark, s)]) ==
            r.(day := Some(s.date), entries := r.entries + [Entry(mark, Truncated(s))])
  {
    NamedDateReads(base, r, before, s.date);
    ReadLinesSnoc(base, r, NamedDate(before, s.date), SlotLine(mark, s));
    SlotLineReads(base, r.(day := Some(s.date)), mark, s);
  }

  lemma EntriesSnoc(mark: Mark, slots: seq<AvailableSlot>, s: AvailableSlot)
    ensures Entries(mark, slots + [s]) == Entries(mark, slots) + [Entry(mark, Truncated(s))]
  {
    EntriesAppend(mark, slots, [s]);
    assert [s][1..] == [];
    assert Entries(mark, [s]) == [Entry(mark, Truncated(s))] + Entries(mark, []);
  }

  /** The place of a reader who has read the slots of one centre. */
  function Read(r: Reading, slots: seq<AvailableSlot>, mark: Mark): Reading
    requires r.Reading?
  {
    Reading(r.centre, r.section, if slots == [] then None else Some(slots[|slots| - 1].date),
            r.entries + Entries(mark, slots))
  }

  lemma ReadOneMore(r: Reading, slots: seq<AvailableSlot>, s: AvailableSlot, mark: Mark)
    requires r.Reading?
    ensures var before := Read(r, slots, mark);
            Read(r, slots + [s], mark) == before.(day := Some(s.date), entries := before.entries + [Entry(mark, Truncated(s))])
  {
    EntriesSnoc(mark, slots, s);
  }

  lemma DateLinesReadOneMore(base: Option<Mark>, r: Reading, slots: seq<AvailableSlot>, s: AvailableSlot, mark: Mark)
    requires r.Reading? && r.section == Some(mark) && r.centre == Some(s.centre)
    requires ReadLines(base, r, DateLines(slots, mark)) == Read(r, slots, mark)
    ensures ReadLines(base, r, DateLines(slots + [s], mark)) == Read(r, slots + [s], mark)
  {
    var next := NamedDate(slots, s.date) + [SlotLine(mark, s)];
    assert DateLines(slots + [s], mark) == DateLines(slots, mark) + next by {
      assert (slots + [s])[..|slots|] == slots;
    }
    ReadLinesAppend(base, r, DateLines(slots, mark), next);
    NextSlotReads(base, Read(r, slots, mark), slots, s, mark);
    ReadOneMore(r, slots, s, mark);
  }

  /** Under its centre and section, the list reads as the slots it was printed from. */
  lemma {:induction false} DateLinesRead(base: Option<Mark>, r: Reading, slots: seq<AvailableSlot>, mark: Mark)
    requires r.Reading? && r.section == Some(mark) && r.centre.Some? && AllAt(r.centre.value, slots) && r.day == None
    ensures ReadLines(base, r, DateLines(slots, mark)) == Read(r, slots, mark)
  {
    if slots == [] {
      assert r.entries + [] == r.entries;
    } else {
      var n := |slots| - 1;
      assert slots[n] in slots && slots == slots[..n] + [slots[n]];
      DateLinesRead(base, r, slots[..n], mark);
      DateLinesReadOneMore(base, r, slots[..n], slots[n], mark);
    }
  }

  lemma {:induction false} DateLinesAreOneLine(slots: seq<AvailableSlot>, mark: Mark)
    ensures forall l <- DateLines(slots, mark) :: OneLine(l)
  {
    if slots != [] {
      var n := |slots| - 1;
      DateLinesAreOneLine(slots[..n], mark);
      SlotIsOneLine(slots[n]);
      DateLineReads(None, Reading(Some(""), Some(mark), None, []), slots[n].date);
    }
  }

  // ---------------------------------------------------------------------------
  // Grouping
  // ---------------------------------------------------------------------------

  datatype Group = Group(centre: string, slots: seq<AvailableSlot>)

  /** `groupby`: runs of neighbours with the same centre. */
  function Runs(slots: seq<AvailableSlot>): seq<Group> {
    if slots == [] then []
    else
      var rest := Runs(slots[1..]);
      if rest != [] && rest[0].centre == slots[0].centre
      then [Group(slots[0].centre, [slots[0]] + rest[0].slots)] + rest[1..]
      else [Group(slots[0].centre, [slots[0]])] + rest
  }

  function ByCentre(slots: seq<AvailableSlot>): seq<Group> { Runs(SortSlots(slots)) }

  function SlotsOf(groups: seq<Group>): seq<AvailableSlot> {
    if groups == [] then [] else groups[0].slots + SlotsOf(groups[1..])
  }

  ghost predicate WellGrouped(groups: seq<Group>) {
    forall g <- groups :: g.slots != [] && AllAt(g.centre, g.slots)
  }

  lemma {:induction false} RunsKeepEverything(slots: seq<AvailableSlot>)
    ensures SlotsOf(Runs(slots)) == slots && WellGrouped(Runs(slots))
    ensures slots != [] ==> Runs(slots) != [] && Runs(slots)[0].centre == slots[0].centre
  {
    if slots != [] {
      RunsKeepEverything(slots[1..]);
      var rest := Runs(slots[1..]);
      assert slots == [slots[0]] + slots[1..];
      if rest != [] && rest[0].centre == slots[0].centre {
        assert rest == [rest[0]] + rest[1..] && rest[0] in rest;
        assert SlotsOf(rest) == rest[0].slots + SlotsOf(rest[1..]);
        assert [slots[0]] + rest[0].slots + SlotsOf(rest[1..]) == slots;
      }
    }
  }

  // ---------------------------------------------------------------------------
  // One-sided changes
  // ---------------------------------------------------------------------------

  function Block(g: Group, mark: Mark): seq<string> {
    [CentreTitle(g.centre)] + DateLines(g.slots, mark)
  }

  function BlocksOf(groups: seq<Group>, mark: Mark): seq<seq<string>> {
    if groups == [] then []
    else BlocksOf(groups[..|groups| - 1], mark) + [Block(groups[|groups| - 1], mark)]
  }

  method Blocks(slots: seq<AvailableSlot>, mark: Mark) returns (blocks: seq<seq<string>>)
    ensures blocks == BlocksOf(ByCentre(slots), mark)
  {
    var groups := ByCentre(slots);
    blocks := [];
    for i := 0 to |groups|
      invariant blocks == BlocksOf(groups[..i], mark)
    {
      assert groups[..i + 1][..i] == groups[..i];
      var lines := DateLinesOf(groups[i].slots, mark);
      blocks := blocks + [[CentreTitle(groups[i].centre)] + lines];
    }
    assert groups[..|groups|] == groups;
  }

  predicate NamesAreOneLine(groups: seq<Group>) { forall g <- groups :: OneLine(g.centre) }

  /** A centre's title puts the centre, and nothing else, in force. */
  lemma TitleReads(base: Option<Mark>, r: Reading, centre: string, rest: seq<string>)
    requires r.Reading?
    ensures ReadLines(base, r, [CentreTitle(centre)] + rest) ==
            ReadLines(base, Reading(Some(centre), base, None, r.entries), rest)
  {
  }

  lemma BlockReads(r: Reading, g: Group, mark: Mark)
    requires r.Reading? && AllAt(g.centre, g.slots)
    ensures var r' := ReadLines(Some(mark), r, Block(g, mark));
            r'.Reading? && r'.entries == r.entries + Entries(mark, g.slots)
  {
    TitleReads(Some(mark), r, g.centre, DateLines(g.slots, mark));
    DateLinesRead(Some(mark), Reading(Some(g.centre), Some(mark), None, r.entries), g.slots, mark);
  }

  lemma BlockIsOneLine(g: Group, mark: Mark)
    requires OneLine(g.centre)
    ensures forall l <- Block(g, mark) :: OneLine(l)
  {
    DateLinesAreOneLine(g.slots, mark);
  }

  lemma SlotsOfSnoc(groups: seq<Group>, g: Group)
    ensures SlotsOf(groups + [g]) == SlotsOf(groups) + g.slots
  {
    if groups == [] {
      assert SlotsOf([g]) == g.slots + SlotsOf([g][1..]) == g.slots;
      assert groups + [g] == [g];
    } else {
      assert (groups + [g])[1..] == groups[1..] + [g];
      SlotsOfSnoc(groups[1..], g);
    }
  }

  lemma {:induction false} BlocksRead(groups: seq<Group>, mark: Mark)
    requires WellGrouped(groups)
    ensures var r := ReadLines(Some(mark), Start(Some(mark)), Flatten(BlocksOf(groups, mark)));
            r.Reading? && r.entries == Entries(mark, SlotsOf(groups))
  {
    if groups != [] {
      var n := |groups| - 1;
      assert groups == groups[..n] + [groups[n]] && groups[n] in groups;
      BlocksRead(groups[..n], mark);
      FlattenSnoc(BlocksOf(groups[..n], mark), Block(groups[n], mark));
      var before := ReadLines(Some(mark), Start(Some(mark)), Flatten(BlocksOf(groups[..n], mark)));
      ReadLinesAppend(Some(mark), Start(Some(mark)), Flatten(BlocksOf(groups[..n], mark)), Block(groups[n], mark));
      BlockReads(before, groups[n], mark);
      SlotsOfSnoc(groups[..n], groups[n]);
      EntriesAppend(mark, SlotsOf(groups[..n]), groups[n].slots);
    }
  }

  lemma {:induction false} BlocksAreOneLine(groups: seq<Group>, mark: Mark)
    requires NamesAreOneLine(groups)
    ensures forall l <- Flatten(BlocksOf(groups, mark)) :: OneLine(l)
  {
    if groups != [] {
      var n := |groups| - 1;
      BlocksAreOneLine(groups[..n], mark);
      FlattenSnoc(BlocksOf(groups[..n], mark), Block(groups[n], mark));
      BlockIsOneLine(groups[n], mark);
    }
  }

  // ---------------------------------------------------------------------------
  // Sizes
  // ---------------------------------------------------------------------------

  lemma DateAndSlotSized(mark: Mark, s: AvailableSlot, n: nat)
    ensures AllSized([DateLine(s.date), SlotLine(mark, s)], n)
  {
    assert DateLine(s.date)[0] == CALENDAR_SIGN[0] && CENTRE_PREFIX[0] != CALENDAR_SIGN[0];
    assert SlotLine(mark, s)[0] == mark.Sign() && CENTRE_PREFIX[0] == 'Т';
  }

  lemma {:induction false} DateLinesSized(slots: seq<AvailableSlot>, mark: Mark, n: nat)
    ensures AllSized(DateLines(slots, mark), n)
  {
    if slots != [] {
      DateLinesSized(slots[..|slots| - 1], mark, n);
      DateAndSlotSized(mark, slots[|slots| - 1], n);
      var day, slot := DateLine(slots[|slots| - 1].date), SlotLine(mark, slots[|slots| - 1]);
      assert day in [day, slot] && slot in [day, slot];
    }
  }

  lemma {:induction false} BlocksSized(groups: seq<Group>, mark: Mark, n: nat)
    requires forall g <- groups :: |CentreTitle(g.centre)| <= n
    ensures AllSized(Flatten(BlocksOf(groups, mark)), n)
  {
    if groups != [] {
      var k := |groups| - 1;
      assert groups[k] in groups && forall g <- groups[..k] :: g in groups;
      BlocksSized(groups[..k], mark, n);
      BlockSized(groups[k], mark, n);
      OneMoreSized(BlocksOf(groups[..k], mark), Block(groups[k], mark), n);
    }
  }

  lemma OneMoreSized(blocks: seq<seq<string>>, block: seq<string>, n: nat)
    requires AllSized(Flatten(blocks), n) && AllSized(block, n)
    ensures AllSized(Flatten(blocks + [block]), n)
  {
    FlattenSnoc(blocks, block);
  }

  lemma BlockSized(g: Group, mark: Mark, n: nat)
    requires |CentreTitle(g.centre)| <= n
    ensures AllSized(Block(g, mark), n)
  {
    DateLinesSized(g.slots, mark, n);
  }
}
