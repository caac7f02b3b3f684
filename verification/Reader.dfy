/**
 How a person reads one availability message: line by line, with the centre, the
 section and the date that were last named.  It is written independently of the
 printer and gives up on anything the printer should never produce, above all a
 slot with no centre or date over it, or under the wrong section.
 */
module Reader {
  import opened Common
  import opened Calendar
  import opened Slots
  import opened Text

  const ADDED_HEADING := "🟢 З'явилися нові слоти"
  const REMOVED_HEADING := "🔴 Слоти більше недоступні"
  const BOTH_HEADING := "🔄 Зміни доступності"
  const ADDED_SECTION := "🟢 Нові слоти"
  const REMOVED_SECTION := "🔴 Більше недоступні"
  const CENTRE_PREFIX := "ТСЦ МВС №"
  const CALENDAR_SIGN := "📅"
  const RANGE_DASH: char := '–'

  datatype Mark = Added | Removed {
    function Sign(): char { if Added? then '+' else '−' }
    function Section(): string { if Added? then ADDED_SECTION else REMOVED_SECTION }
  }

  datatype Entry = Entry(mark: Mark, slot: AvailableSlot)

  /** What is in force, and what has been read so far. */
  datatype Reading =
    | Broken
    | Reading(centre: Option<string>, section: Option<Mark>, day: Option<Date>, entries: seq<Entry>)

  /** One-sided messages carry their section in the heading. */
  function SectionOfHeading(heading: string): Option<Option<Mark>> {
    if heading == ADDED_HEADING then Some(Some(Added))
    else if heading == REMOVED_HEADING then Some(Some(Removed))
    else if heading == BOTH_HEADING then Some(None)
    else None
  }

  function Start(base: Option<Mark>): Reading { Reading(None, base, None, []) }

  function ReadTimes(s: string): Option<(Clock, Option<Clock>)> {
    if |s| == 5 then
      match ReadClock(s)
      case Some(start) => Some((start, None))
      case None => None
    else if |s| == 11 && s[5] == RANGE_DASH then
      match (ReadClock(s[..5]), ReadClock(s[6..]))
      case (Some(start), Some(end)) => Some((start, Some(end)))
      case _ => None
    else None
  }

  function ReadSign(c: char): Option<Mark> {
    if c == Added.Sign() then Some(Added) else if c == Removed.Sign() then Some(Removed) else None
  }

  function ReadSlotLine(r: Reading, line: string): Reading
    requires r.Reading?
  {
    if |line| < 2 || line[1] != ' ' then Broken
    else match (ReadSign(line[0]), ReadTimes(line[2..]))
      case (Some(mark), Some((start, end))) =>
        if r.centre.Some? && r.day.Some? && r.section == Some(mark) then
          r.(entries := r.entries + [Entry(mark, AvailableSlot(r.centre.value, r.day.value, start, end))])
        else Broken
      case _ => Broken
  }

  function ReadSectionLine(base: Option<Mark>, r: Reading, mark: Mark): Reading
    requires r.Reading?
  {
    if base.None? && r.centre.Some? then r.(section := Some(mark), day := None) else Broken
  }

  function ReadDateLine(r: Reading, line: string): Reading
    requires r.Reading?
  {
    if |line| > 2 && line[1] == ' ' && r.centre.Some? && r.section.Some? then
      match ReadDate(line[2..])
      case Some(day) => r.(day := Some(day))
      case None => Broken
    else Broken
  }

  function ReadLine(base: Option<Mark>, r: Reading, line: string): Reading {
    if r.Broken? then Broken
    else if line == "" then r
    else if StartsWith(line, CENTRE_PREFIX) then
      r.(centre := Some(line[|CENTRE_PREFIX|..]), section := base, day := None)
    else if line == ADDED_SECTION then ReadSectionLine(base, r, Added)
    else if line == REMOVED_SECTION then ReadSectionLine(base, r, Removed)
    else if StartsWith(line, CALENDAR_SIGN) then ReadDateLine(r, line)
    else ReadSlotLine(r, line)
  }

  function ReadLines(base: Option<Mark>, r: Reading, lines: seq<string>): Reading
    decreases lines
  {
    if lines == [] then r else ReadLines(base, ReadLine(base, r, lines[0]), lines[1..])
  }

  /** A message is read on its own, from nothing in force. */
  function ReadMessage(message: string): Option<seq<Entry>> {
    var lines := Split(message);
    match SectionOfHeading(lines[0])
    case None => None
    case Some(base) =>
      if |lines| == 1 then Some([])
      else if lines[1] != "" then None
      else match ReadLines(base, Start(base), lines[2..])
        case Broken => None
        case Reading(_, _, _, entries) => Some(entries)
  }

  function ReadMessages(messages: seq<string>): Option<seq<Entry>> {
    if messages == [] then Some([])
    else match (ReadMessages(messages[..|messages| - 1]), ReadMessage(messages[|messages| - 1]))
      case (Some(before), Some(last)) => Some(before + last)
      case _ => None
  }

  function SlotsMarked(entries: seq<Entry>, mark: Mark): seq<AvailableSlot> {
    if entries == [] then []
    else (if entries[0].mark == mark then [entries[0].slot] else []) + SlotsMarked(entries[1..], mark)
  }

  lemma {:induction false} SlotsMarkedAppend(a: seq<Entry>, b: seq<Entry>, mark: Mark)
    ensures SlotsMarked(a + b, mark) == SlotsMarked(a, mark) + SlotsMarked(b, mark)
  {
    if a == [] {
      assert a + b == b;
    } else {
      assert (a + b)[1..] == a[1..] + b;
      SlotsMarkedAppend(a[1..], b, mark);
      Associative(if a[0].mark == mark then [a[0].slot] else [], SlotsMarked(a[1..], mark), SlotsMarked(b, mark));
    }
  }

  // ---------------------------------------------------------------------------
  // Reading in pieces
  // ---------------------------------------------------------------------------

  lemma {:induction false} ReadLinesAppend(base: Option<Mark>, r: Reading, a: seq<string>, b: seq<string>)
    ensures ReadLines(base, r, a + b) == ReadLines(base, ReadLines(base, r, a), b)
    decreases a
  {
    if a == [] {
      assert a + b == b;
    } else {
      assert (a + b)[1..] == a[1..] + b;
      ReadLinesAppend(base, ReadLine(base, r, a[0]), a[1..], b);
    }
  }

  lemma ReadLinesSnoc(base: Option<Mark>, r: Reading, a: seq<string>, line: string)
    ensures ReadLines(base, r, a + [line]) == ReadLine(base, ReadLines(base, r, a), line)
  {
    ReadLinesAppend(base, r, a, [line]);
    var s := ReadLines(base, r, a);
    assert [line][1..] == [];
    assert ReadLines(base, s, [line]) == ReadLines(base, ReadLine(base, s, line), []);
  }

  lemma {:induction false} BrokenStaysBroken(base: Option<Mark>, lines: seq<string>)
    ensures ReadLines(base, Broken, lines) == Broken
  {
    if lines != [] {
      BrokenStaysBroken(base, lines[1..]);
    }
  }

  /** The same place with earlier entries put in front. */
  function After(entries: seq<Entry>, r: Reading): Reading {
    if r.Broken? then Broken else r.(entries := entries + r.entries)
  }

  lemma ReadLineAfter(base: Option<Mark>, earlier: seq<Entry>, r: Reading, line: string)
    ensures ReadLine(base, After(earlier, r), line) == After(earlier, ReadLine(base, r, line))
  {
  }

  /** Nothing is in force without what it hangs from. */
  predicate Hangs(base: Option<Mark>, r: Reading) {
    r.Reading? ==>
      && (r.day.Some? ==> r.centre.Some? && r.section.Some?)
      && (r.section != base ==> base.None? && r.centre.Some?)
  }

  lemma {:induction false} ReadingHangs(base: Option<Mark>, r: Reading, lines: seq<string>)
    requires Hangs(base, r)
    ensures Hangs(base, ReadLines(base, r, lines))
    decreases lines
  {
    if lines != [] {
      ReadingHangs(base, ReadLine(base, r, lines[0]), lines[1..]);
    }
  }

  // ---------------------------------------------------------------------------
  // Trailing white space
  // ---------------------------------------------------------------------------

  /** The lines that are left when a message is stripped on the right. */
  function Trim(lines: seq<string>): (r: seq<string>)
    requires |lines| > 0
    ensures |r| > 0
  {
    var last := RStrip(lines[|lines| - 1]);
    if |lines| == 1 then [last]
    else if last == "" then Trim(lines[..|lines| - 1])
    else lines[..|lines| - 1] + [last]
  }

  lemma {:induction false} StripIsTrim(lines: seq<string>)
    requires |lines| > 0
    ensures RStrip(Join(lines)) == Join(Trim(lines))
  {
    var n := |lines| - 1;
    var last := lines[n];
    assert lines == lines[..n] + [last];
    if n > 0 {
      JoinLast(lines[..n], last);
      var before := Join(lines[..n]);
      RStripAppend(before + "\n", last);
      RStripAppend(before, "\n");
      assert RStrip("\n") == "" by {
        assert "\n"[..0] == "";
      }
      if RStrip(last) == "" {
        StripIsTrim(lines[..n]);
      } else {
        JoinLast(lines[..n], RStrip(last));
      }
    }
  }

  /** A readable line that stripping changes is blank or names a centre. */
  lemma OnlyCentresLoseSpace(base: Option<Mark>, r: Reading, line: string)
    requires r.Reading? && ReadLine(base, r, line).Reading?
    ensures line == "" || RStrip(line) == line
            || (StartsWith(line, CENTRE_PREFIX) && StartsWith(RStrip(line), CENTRE_PREFIX))
    ensures line != "" ==> RStrip(line) != ""
  {
  }

  predicate PlainHeading(heading: string) { OneLine(heading) && heading != "" && RStrip(heading) == heading }

  lemma StrippedLastLine(heading: string, base: Option<Mark>, body: seq<string>, last: string)
    requires OneLine(heading) && OneLine(last) && (forall l <- body :: OneLine(l))
    requires ReadLines(base, Start(base), body).Reading? && ReadLines(base, Start(base), body + [last]).Reading?
    requires RStrip(last) == last || (StartsWith(last, CENTRE_PREFIX) && StartsWith(RStrip(last), CENTRE_PREFIX))
    ensures var lines := [heading, ""] + body + [RStrip(last)];
            && (forall l <- lines :: OneLine(l)) && ReadLines(base, Start(base), lines[2..]).Reading?
            && ReadLines(base, Start(base), lines[2..]).entries == ReadLines(base, Start(base), body + [last]).entries
  {
    var lines := [heading, ""] + body + [RStrip(last)];
    assert lines[2..] == body + [RStrip(last)];
    ReadLinesSnoc(base, Start(base), body, last);
    ReadLinesSnoc(base, Start(base), body, RStrip(last));
    RStripShortens(last);
    forall c | c in RStrip(last) ensures c in last {
    }
  }

  lemma {:induction false} TrimKeepsEntries(heading: string, base: Option<Mark>, body: seq<string>)
    requires PlainHeading(heading) && ReadLines(base, Start(base), body).Reading?
    requires forall l <- body :: OneLine(l)
    ensures var lines := Trim([heading, ""] + body);
            && lines[0] == heading && (forall l <- lines :: OneLine(l))
            && (|lines| == 1 ==> ReadLines(base, Start(base), body).entries == [])
            && (|lines| > 1 ==> lines[1] == "" && ReadLines(base, Start(base), lines[2..]).Reading?
                                && ReadLines(base, Start(base), lines[2..]).entries
                                   == ReadLines(base, Start(base), body).entries)
  {
    var all := [heading, ""] + body;
    if body == [] {
      assert all[..1] == [heading] && RStrip("") == "";
      assert Trim(all) == Trim([heading]) == [heading];
    } else {
      var n := |body| - 1;
      var last := body[n];
      assert last in body && body == body[..n] + [last];
      assert all[..|all| - 1] == [heading, ""] + body[..n];
      ReadLinesSnoc(base, Start(base), body[..n], last);
      var before := ReadLines(base, Start(base), body[..n]);
      OnlyCentresLoseSpace(base, before, last);
      if last == "" {
        TrimKeepsEntries(heading, base, body[..n]);
      } else {
        assert Trim(all) == [heading, ""] + body[..n] + [RStrip(last)];
        StrippedLastLine(heading, base, body[..n], last);
      }
    }
  }

  lemma HeadingIsPlain(heading: string)
    requires SectionOfHeading(heading).Some?
    ensures PlainHeading(heading)
  {
  }

  /** Printing a body under a heading and stripping it loses nothing a reader would note. */
  lemma MessageReadsAsItsLines(heading: string, base: Option<Mark>, body: seq<string>)
    requires SectionOfHeading(heading) == Some(base)
    requires ReadLines(base, Start(base), body).Reading? && forall l <- body :: OneLine(l)
    ensures ReadMessage(RStrip(Join([heading, ""] + body))) == Some(ReadLines(base, Start(base), body).entries)
  {
    var lines := Trim([heading, ""] + body);
    HeadingIsPlain(heading);
    StripIsTrim([heading, ""] + body);
    TrimKeepsEntries(heading, base, body);
    SplitJoin(lines);
  }
}
