/**
 Splitting a long availability change into messages (notifications/templates_uk.py,
 _chunked).  Every message repeats the centre, section and date its first slot belongs
 to and can be read on its own; that a reader loses nothing by the splitting is what
 is proved.
 */
module Chunking {
  import opened Common
  import opened Text
  import opened Calendar
  import opened Reader

  const MAX_TELEGRAM_TEXT := 3900

  /** The lines in force; "" for none. */
  datatype Place = Place(centre: string, section: string, day: string)

  const NOWHERE := Place("", "", "")

  function Move(p: Place, line: string): Place {
    if StartsWith(line, CENTRE_PREFIX) then Place(line, "", "")
    else if line == ADDED_SECTION || line == REMOVED_SECTION then p.(section := line, day := "")
    else if StartsWith(line, CALENDAR_SIGN) then p.(day := line)
    else p
  }

  function Track(lines: seq<string>): Place {
    if lines == [] then NOWHERE else Move(Track(lines[..|lines| - 1]), lines[|lines| - 1])
  }

  function IfAny(line: string): seq<string> { if line == "" then [] else [line] }

  /** The lines that put a place back in force at the top of a message. */
  function Context(p: Place): seq<string> {
    if p.centre != "" && p.section != "" then [p.centre, "", p.section] + IfAny(p.day)
    else IfAny(p.centre) + IfAny(p.section) + IfAny(p.day)
  }

  /** The first lines of a message that has to begin with `line`. */
  function Opening(p: Place, line: string): seq<string> {
    var lines := Context(p);
    if lines != [] && lines[|lines| - 1] == line then lines else lines + [line]
  }

  function Message(heading: string, body: seq<string>): string { RStrip(Join([heading, ""] + body)) }

  predicate Fits(heading: string, body: seq<string>) {
    |Join([heading, ""] + body)| <= MAX_TELEGRAM_TEXT
  }

  /** At every line, the context and that line alone would fit into a message. */
  ghost predicate EveryOpeningFits(heading: string, lines: seq<string>) {
    forall k :: 0 <= k < |lines| ==> Fits(heading, Opening(Track(lines[..k + 1]), lines[k]))
  }

  ghost predicate AllWithinLimit(messages: seq<string>) {
    forall m <- messages :: |m| <= MAX_TELEGRAM_TEXT
  }

  // ---------------------------------------------------------------------------
  // What a reader has in force is what the chunker has in force
  // ---------------------------------------------------------------------------

  predicate SamePlace(base: Option<Mark>, r: Reading, p: Place)
    requires r.Reading?
  {
    && Hangs(base, r)
    && p.centre == (if r.centre.Some? then CENTRE_PREFIX + r.centre.value else "")
    && p.section == (if r.section != base && r.section.Some? then r.section.value.Section() else "")
    && (r.section.None? ==> base.None?)
    && (if r.day.None? then p.day == ""
        else |p.day| > 2 && StartsWith(p.day, CALENDAR_SIGN) && p.day[1] == ' ' && ReadDate(p.day[2..]) == r.day)
  }

  lemma SamePlaceMoves(base: Option<Mark>, r: Reading, p: Place, line: string)
    requires r.Reading? && SamePlace(base, r, p) && ReadLine(base, r, line).Reading?
    ensures SamePlace(base, ReadLine(base, r, line), Move(p, line))
  {
    if StartsWith(line, CENTRE_PREFIX) {
      assert line == CENTRE_PREFIX + line[|CENTRE_PREFIX|..];
    }
  }

  lemma ReadsOneMore(base: Option<Mark>, lines: seq<string>, line: string)
    ensures ReadLines(base, Start(base), lines + [line]) == ReadLine(base, ReadLines(base, Start(base), lines), line)
  {
    ReadLinesSnoc(base, Start(base), lines, line);
  }

  lemma CentreReadsBack(base: Option<Mark>, centre: string)
    ensures ReadLines(base, Start(base), [CENTRE_PREFIX + centre]) == Reading(Some(centre), base, None, [])
  {
  }

  lemma SectionLineReads(base: Option<Mark>, r: Reading, mark: Mark)
    requires base.None? && r.Reading? && r.centre.Some?
    ensures ReadLine(base, r, mark.Section()) == r.(section := Some(mark), day := None)
  {
    assert ADDED_SECTION[0] == '🟢' && REMOVED_SECTION[0] == '🔴' && CENTRE_PREFIX[0] == 'Т';
    assert !StartsWith(mark.Section(), CENTRE_PREFIX);
  }

  lemma SectionReadsBack(base: Option<Mark>, centre: string, mark: Mark)
    requires base.None?
    ensures ReadLines(base, Start(base), [CENTRE_PREFIX + centre, "", mark.Section()])
            == Reading(Some(centre), Some(mark), None, [])
  {
    var first := CENTRE_PREFIX + centre;
    CentreReadsBack(base, centre);
    ReadsOneMore(base, [first], "");
    assert [first] + [""] == [first, ""];
    ReadsOneMore(base, [first, ""], mark.Section());
    SectionLineReads(base, Reading(Some(centre), base, None, []), mark);
    assert [first, ""] + [mark.Section()] == [first, "", mark.Section()];
  }

  /** Reading the context from nothing puts everything back in force. */
  lemma ContextReads(base: Option<Mark>, r: Reading, p: Place)
    requires r.Reading? && SamePlace(base, r, p)
    ensures ReadLines(base, Start(base), Context(p)) == Reading(r.centre, r.section, r.day, [])
  {
    if r.centre.None? {
      assert Context(p) == [];
    } else {
      var upTo := if p.section == "" then [p.centre] else [p.centre, "", p.section];
      if p.section == "" {
        CentreReadsBack(base, r.centre.value);
      } else {
        SectionReadsBack(base, r.centre.value, r.section.value);
      }
      assert ReadLines(base, Start(base), upTo) == Reading(r.centre, r.section, None, []);
      if p.day != "" {
        ReadsOneMore(base, upTo, p.day);
        assert Context(p) == upTo + [p.day];
      } else {
        assert Context(p) == upTo;
      }
    }
  }

  predicate MovesPlace(line: string) {
    StartsWith(line, CENTRE_PREFIX) || line == ADDED_SECTION || line == REMOVED_SECTION
    || StartsWith(line, CALENDAR_SIGN)
  }

  /** A line that changes the place ends the new context; any other line is not in it. */
  lemma OpeningIs(base: Option<Mark>, r: Reading, p: Place, line: string)
    requires r.Reading? && SamePlace(base, r, p) && ReadLine(base, r, line).Reading?
    ensures MovesPlace(line) ==> Opening(Move(p, line), line) == Context(Move(p, line))
                                 && ReadLine(base, r, line).entries == r.entries
    ensures !MovesPlace(line) ==> Move(p, line) == p && Opening(p, line) == Context(p) + [line]
  {
    var lines := Context(Move(p, line));
    if MovesPlace(line) {
      assert lines != [] && lines[|lines| - 1] == line;
    } else if lines != [] {
      assert lines[|lines| - 1] == p.centre || lines[|lines| - 1] == p.section || lines[|lines| - 1] == p.day;
      assert MovesPlace(lines[|lines| - 1]);
    }
  }

  /** A new message read from nothing ends where the whole text had got to. */
  lemma OpeningReads(base: Option<Mark>, r: Reading, p: Place, line: string)
    requires r.Reading? && SamePlace(base, r, p) && ReadLine(base, r, line).Reading?
    ensures After(r.entries, ReadLines(base, Start(base), Opening(Move(p, line), line))) == ReadLine(base, r, line)
  {
    OpeningIs(base, r, p, line);
    var next := ReadLine(base, r, line);
    assert r.entries + [] == r.entries;
    if MovesPlace(line) {
      SamePlaceMoves(base, r, p, line);
      ContextReads(base, next, Move(p, line));
    } else {
      var blank := Reading(r.centre, r.section, r.day, []);
      ContextReads(base, r, p);
      ReadLinesSnoc(base, Start(base), Context(p), line);
      ReadLineAfter(base, r.entries, blank, line);
    }
  }

  // ---------------------------------------------------------------------------
  // What the loop keeps
  // ---------------------------------------------------------------------------

  /** The finished messages and the unfinished one say what `lines` say. */
  ghost predicate SaysSoFar(
    base: Option<Mark>, lines: seq<string>, messages: seq<string>, current: seq<string>, place: Place)
  {
    var whole := ReadLines(base, Start(base), lines);
    (forall l <- current :: OneLine(l)) && OneLine(place.centre) && OneLine(place.section) && OneLine(place.day) &&
    (whole.Reading? ==>
       && SamePlace(base, whole, place)
       && ReadMessages(messages).Some?
       && After(ReadMessages(messages).value, ReadLines(base, Start(base), current)) == whole)
  }

  /** So it is under every heading a reader knows, when the lines are lines. */
  ghost predicate Says(
    heading: string, lines: seq<string>, messages: seq<string>, current: seq<string>, place: Place)
  {
    forall base | SectionOfHeading(heading) == Some(base) && (forall l <- lines :: OneLine(l)) ::
      SaysSoFar(base, lines, messages, current, place)
  }

  lemma ReadsOn(base: Option<Mark>, r: Reading, current: seq<string>, line: string, separator: seq<string>)
    requires separator == [] || separator == [""]
    ensures ReadLines(base, r, current + (separator + [line])) == ReadLine(base, ReadLines(base, r, current), line)
  {
    ReadLinesSnoc(base, r, current, "");
    assert separator == [] ==> current + separator == current;
    ReadLinesSnoc(base, r, current + separator, line);
    assert current + separator + [line] == current + (separator + [line]);
  }

  lemma SaysOneMoreSoFar(
    base: Option<Mark>, lines: seq<string>, messages: seq<string>, current: seq<string>, place: Place,
    line: string, separator: seq<string>)
    requires SaysSoFar(base, lines, messages, current, place) && (separator == [] || separator == [""]) && OneLine(line)
    ensures forall longer | longer == current + (separator + [line]) ::
              SaysSoFar(base, lines + [line], messages, longer, Move(place, line))
  {
    if ReadLines(base, Start(base), lines + [line]).Reading? {
      ReadLinesSnoc(base, Start(base), lines, line);
      SamePlaceMoves(base, ReadLines(base, Start(base), lines), place, line);
      ReadsOn(base, Start(base), current, line, separator);
      ReadLineAfter(base, ReadMessages(messages).value, ReadLines(base, Start(base), current), line);
    }
  }

  /** The next line goes into the message at hand, perhaps behind a blank one. */
  lemma SaysAppended(
    heading: string, lines: seq<string>, messages: seq<string>, current: seq<string>, place: Place,
    line: string, separator: seq<string>)
    requires Says(heading, lines, messages, current, place) && (separator == [] || separator == [""])
    ensures Says(heading, lines + [line], messages, current + (separator + [line]), Move(place, line))
  {
    assert line in lines + [line] && forall l <- lines :: l in lines + [line];
    forall base | SectionOfHeading(heading) == Some(base) && (forall l <- lines + [line] :: OneLine(l))
      ensures SaysSoFar(base, lines + [line], messages, current + (separator + [line]), Move(place, line))
    {
      SaysOneMoreSoFar(base, lines, messages, current, place, line, separator);
    }
  }

  /** What is said so far survives closing the message at hand. */
  lemma MessageClosed(
    heading: string, lines: seq<string>, messages: seq<string>, current: seq<string>, place: Place)
    requires Says(heading, lines, messages, current, place)
    requires SectionOfHeading(heading).Some? && forall l <- lines :: OneLine(l)
    requires ReadLines(SectionOfHeading(heading).value, Start(SectionOfHeading(heading).value), lines).Reading?
    ensures var base := SectionOfHeading(heading).value;
            ReadMessages(messages + [Message(heading, current)]) ==
            Some(ReadLines(base, Start(base), lines).entries)
  {
    MessageReadsAsItsLines(heading, SectionOfHeading(heading).value, current);
  }

  /** The next line opens a new message. */
  lemma SaysReopened(
    heading: string, lines: seq<string>, messages: seq<string>, current: seq<string>, place: Place, line: string)
    requires Says(heading, lines, messages, current, place)
    ensures Says(heading, lines + [line], messages + [Message(heading, current)],
                 Opening(Move(place, line), line), Move(place, line))
  {
    forall base | SectionOfHeading(heading) == Some(base) && (forall l <- lines + [line] :: OneLine(l))
      ensures SaysSoFar(base, lines + [line], messages + [Message(heading, current)],
                        Opening(Move(place, line), line), Move(place, line))
    {
      assert line in lines + [line] && forall l <- lines :: l in lines + [line];
      assert SaysSoFar(base, lines, messages, current, place);
      OpeningIsOneLine(place, line);
      if ReadLines(base, Start(base), lines + [line]).Reading? {
        ReadLinesSnoc(base, Start(base), lines, line);
        SamePlaceMoves(base, ReadLines(base, Start(base), lines), place, line);
        MessageClosed(heading, lines, messages, current, place);
        OpeningReads(base, ReadLines(base, Start(base), lines), place, line);
      }
    }
  }

  lemma OpeningIsOneLine(place: Place, line: string)
    requires OneLine(place.centre) && OneLine(place.section) && OneLine(place.day) && OneLine(line)
    ensures forall l <- Opening(Move(place, line), line) :: OneLine(l)
  {
    var next := Move(place, line);
    forall l | l in Opening(next, line) ensures OneLine(l) {
      assert l == next.centre || l == "" || l == next.section || l == next.day || l == line;
    }
  }

  // ---------------------------------------------------------------------------
  // Length
  // ---------------------------------------------------------------------------

  lemma MessageWithinLimit(heading: string, body: seq<string>)
    requires Fits(heading, body)
    ensures |Message(heading, body)| <= MAX_TELEGRAM_TEXT
  {
    RStripShortens(Join([heading, ""] + body));
  }

  lemma MessageStartsWithHeading(heading: string, body: seq<string>)
    requires RStrip(heading) == heading
    ensures StartsWith(Message(heading, body), heading)
  {
    var tail := "\n" + Join([""] + body);
    assert ([heading, ""] + body)[1..] == [""] + body;
    assert Join([heading, ""] + body) == heading + tail by {
      assert heading + "\n" + Join([""] + body) == heading + tail;
    }
    RStripAppend(heading, tail);
  }

  /** The sizes of the lines a change is printed with, for centre titles of at most `n`. */
  predicate Sized(line: string, n: nat) {
    if StartsWith(line, CENTRE_PREFIX) then |line| <= n
    else if StartsWith(line, CALENDAR_SIGN) then |line| <= 12
    else line == ADDED_SECTION || line == REMOVED_SECTION || |line| <= 13
  }

  predicate AllSized(lines: seq<string>, n: nat) { forall l <- lines :: Sized(l, n) }

  lemma {:induction false} TrackSized(lines: seq<string>, n: nat)
    requires AllSized(lines, n)
    ensures |Track(lines).centre| <= n && |Track(lines).section| <= 19 && |Track(lines).day| <= 12
  {
    if lines != [] {
      assert lines[|lines| - 1] in lines && forall l <- lines[..|lines| - 1] :: l in lines;
      TrackSized(lines[..|lines| - 1], n);
    }
  }

  lemma OpeningWeight(p: Place, line: string, n: nat)
    requires |p.centre| <= n && |p.section| <= 19 && |p.day| <= 12 && Sized(line, n)
    ensures Weight(Opening(Move(p, line), line)) <= n + 49
  {
    var next := Move(p, line);
    assert |next.centre| <= n && |next.section| <= 19 && |next.day| <= 12;
    ContextWeight(next);
    WeightAppend(Context(next), [line]);
    assert Weight([line]) == |line| + 1 by { assert [line][1..] == []; }
    if MovesPlace(line) {
      assert Context(next) != [] && Context(next)[|Context(next)| - 1] == line;
    }
  }

  lemma ContextWeight(p: Place)
    ensures Weight(Context(p)) <= |p.centre| + |p.section| + |p.day| + 4
  {
    WeightAppend([p.centre, "", p.section], IfAny(p.day));
    WeightAppend(IfAny(p.centre) + IfAny(p.section), IfAny(p.day));
    WeightAppend(IfAny(p.centre), IfAny(p.section));
    assert [p.centre, "", p.section][1..] == ["", p.section] && ["", p.section][1..] == [p.section];
    assert [p.section][1..] == [] && [p.centre][1..] == [] && [p.day][1..] == [];
  }

  /** Titles of up to 3825 characters leave room for everything else. */
  lemma SizedLinesFit(heading: string, lines: seq<string>)
    requires |heading| <= 25 && AllSized(lines, 3825)
    ensures EveryOpeningFits(heading, lines)
  {
    forall k | 0 <= k < |lines| ensures Fits(heading, Opening(Track(lines[..k + 1]), lines[k])) {
      assert lines[..k + 1] == lines[..k] + [lines[k]] && lines[k] in lines;
      TrackSnoc(lines[..k], lines[k]);
      TrackSized(lines[..k], 3825);
      OpeningWeight(Track(lines[..k]), lines[k], 3825);
      var body := Opening(Track(lines[..k + 1]), lines[k]);
      JoinLength([heading, ""] + body);
      WeightAppend([heading, ""], body);
      assert [heading, ""][1..] == [""] && [""][1..] == [];
    }
  }

  lemma TrackSnoc(lines: seq<string>, line: string)
    ensures Track(lines + [line]) == Move(Track(lines), line)
  {
  }

  lemma NextOpeningFits(heading: string, all: seq<string>, done: seq<string>, line: string)
    requires done + [line] <= all && EveryOpeningFits(heading, all)
    ensures Fits(heading, Opening(Move(Track(done), line), line))
  {
    assert all[..|done| + 1] == done + [line];
    TrackSnoc(done, line);
  }

  /** No message is too long, provided every opening of `all` fits. */
  ghost predicate Short(heading: string, all: seq<string>, messages: seq<string>, current: seq<string>) {
    EveryOpeningFits(heading, all) ==> AllWithinLimit(messages) && (current != [] ==> Fits(heading, current))
  }

  ghost predicate Headed(heading: string, messages: seq<string>) {
    RStrip(heading) == heading ==> forall m <- messages :: StartsWith(m, heading)
  }

  // ---------------------------------------------------------------------------
  // Where a message ends
  // ---------------------------------------------------------------------------

  function Gap(gap: bool): seq<string> { if gap then [""] else [] }

  /** The body of a message with the lines `start .. stop`, a blank line before each that has a gap. */
  function Body(lines: seq<string>, gaps: seq<bool>, start: nat, stop: nat): seq<string>
    requires start < stop <= |lines| == |gaps|
    decreases stop
  {
    if stop == start + 1 then Opening(Track(lines[..stop]), lines[start])
    else Body(lines, gaps, start, stop - 1) + (Gap(gaps[stop - 1]) + [lines[stop - 1]])
  }

  /** This message holds the lines `start .. stop`: each but the first fitted behind those before it,
      and the next one did not. */
  ghost predicate Holds(
    heading: string, lines: seq<string>, gaps: seq<bool>, start: nat, stop: nat, message: string)
  {
    && start < stop <= |lines| == |gaps|
    && message == Message(heading, Body(lines, gaps, start, stop))
    && (forall k :: start + 1 < k <= stop ==> Fits(heading, Body(lines, gaps, start, k)))
    && (stop < |lines| ==> !Fits(heading, Body(lines, gaps, start, stop + 1)))
  }

  /** The messages hold the lines up to the last cut, one stretch after the other. */
  ghost predicate CutAt(
    heading: string, lines: seq<string>, gaps: seq<bool>, messages: seq<string>, cuts: seq<nat>)
  {
    && |cuts| == |messages| + 1 && cuts[0] == 0
    && forall m :: 0 <= m < |messages| ==> Holds(heading, lines, gaps, cuts[m], cuts[m + 1], messages[m])
  }

  /** Every message is as long as it can be. */
  ghost predicate Filled(heading: string, lines: seq<string>, gaps: seq<bool>, messages: seq<string>) {
    exists cuts: seq<nat> :: CutAt(heading, lines, gaps, messages, cuts) && cuts[|messages|] == |lines|
  }

  /** The message at hand holds what follows the last cut, and is not yet too long. */
  ghost predicate AtHand(heading: string, lines: seq<string>, gaps: seq<bool>, current: seq<string>, start: nat) {
    if current == [] then start == |lines| == 0
    else
      && start < |lines| == |gaps| && current == Body(lines, gaps, start, |lines|)
      && forall k :: start + 1 < k <= |lines| ==> Fits(heading, Body(lines, gaps, start, k))
  }

  /** The finished messages are full, and the one at hand goes on from the last of them. */
  ghost predicate Filling(
    heading: string, lines: seq<string>, gaps: seq<bool>, messages: seq<string>, current: seq<string>)
  {
    && |gaps| == |lines| && (current == [] ==> messages == [])
    && exists cuts: seq<nat> :: CutAt(heading, lines, gaps, messages, cuts) && AtHand(heading, lines, gaps, current, cuts[|messages|])
  }

  lemma {:induction false} BodyOfMore(lines: seq<string>, gaps: seq<bool>, line: string, gap: bool, start: nat, stop: nat)
    requires start < stop <= |lines| == |gaps|
    ensures Body(lines + [line], gaps + [gap], start, stop) == Body(lines, gaps, start, stop)
    decreases stop
  {
    assert (lines + [line])[..stop] == lines[..stop];
    if stop > start + 1 {
      BodyOfMore(lines, gaps, line, gap, start, stop - 1);
    }
  }

  lemma BodiesOfMore(lines: seq<string>, gaps: seq<bool>, line: string, gap: bool, start: nat)
    requires |lines| == |gaps|
    ensures forall k :: start < k <= |lines| ==> Body(lines + [line], gaps + [gap], start, k) == Body(lines, gaps, start, k)
  {
    forall k | start < k <= |lines| ensures Body(lines + [line], gaps + [gap], start, k) == Body(lines, gaps, start, k) {
      BodyOfMore(lines, gaps, line, gap, start, k);
    }
  }

  lemma HoldsStill(
    heading: string, lines: seq<string>, gaps: seq<bool>, line: string, gap: bool, start: nat, stop: nat, message: string)
    requires Holds(heading, lines, gaps, start, stop, message) && stop < |lines|
    ensures Holds(heading, lines + [line], gaps + [gap], start, stop, message)
  {
    BodiesOfMore(lines, gaps, line, gap, start);
  }

  /** Cuts stay where they are when lines follow. */
  lemma CutStill(
    heading: string, lines: seq<string>, gaps: seq<bool>, messages: seq<string>, cuts: seq<nat>, line: string, gap: bool)
    requires CutAt(heading, lines, gaps, messages, cuts) && cuts[|messages|] < |lines|
    ensures CutAt(heading, lines + [line], gaps + [gap], messages, cuts)
  {
    forall m | 0 <= m < |messages| ensures Holds(heading, lines + [line], gaps + [gap], cuts[m], cuts[m + 1], messages[m]) {
      CutsAscend(heading, lines, gaps, messages, cuts, m + 1);
      HoldsStill(heading, lines, gaps, line, gap, cuts[m], cuts[m + 1], messages[m]);
    }
  }

  lemma {:induction false} CutsAscend(
    heading: string, lines: seq<string>, gaps: seq<bool>, messages: seq<string>, cuts: seq<nat>, m: nat)
    requires CutAt(heading, lines, gaps, messages, cuts) && m <= |messages|
    ensures cuts[m] <= cuts[|messages|]
    decreases |messages| - m
  {
    if m < |messages| {
      CutsAscend(heading, lines, gaps, messages, cuts, m + 1);
      assert Holds(heading, lines, gaps, cuts[m], cuts[m + 1], messages[m]);
    }
  }

  lemma FillingGoesOn(
    heading: string, lines: seq<string>, gaps: seq<bool>, messages: seq<string>, current: seq<string>, line: string, gap: bool)
    requires Filling(heading, lines, gaps, messages, current) && current != []
    requires Fits(heading, current + (Gap(gap) + [line]))
    ensures Filling(heading, lines + [line], gaps + [gap], messages, current + (Gap(gap) + [line]))
  {
    var cuts: seq<nat> :| CutAt(heading, lines, gaps, messages, cuts) && AtHand(heading, lines, gaps, current, cuts[|messages|]);
    CutStill(heading, lines, gaps, messages, cuts, line, gap);
    AtHandGoesOn(heading, lines, gaps, current, cuts[|messages|], line, gap);
  }

  lemma AtHandGoesOn(
    heading: string, lines: seq<string>, gaps: seq<bool>, current: seq<string>, start: nat, line: string, gap: bool)
    requires AtHand(heading, lines, gaps, current, start) && current != [] && Fits(heading, current + (Gap(gap) + [line]))
    ensures AtHand(heading, lines + [line], gaps + [gap], current + (Gap(gap) + [line]), start)
  {
    BodiesOfMore(lines, gaps, line, gap, start);
  }

  lemma FirstBody(line: string, gap: bool)
    ensures Body([line], [gap], 0, 1) == [line]
  {
    assert [line][..1] == [line];
    FirstOfAll(line);
  }

  lemma FillingBegins(heading: string, messages: seq<string>, line: string)
    requires Filling(heading, [], [], messages, [])
    ensures Filling(heading, [line], [false], messages, [line])
  {
    FirstBody(line, false);
    assert CutAt(heading, [line], [false], [], [0]);
    assert AtHand(heading, [line], [false], [line], 0);
  }

  lemma FillingStartsAnew(
    heading: string, lines: seq<string>, gaps: seq<bool>, messages: seq<string>, current: seq<string>, line: string, gap: bool)
    requires Filling(heading, lines, gaps, messages, current) && current != []
    requires !Fits(heading, current + (Gap(gap) + [line]))
    ensures Filling(heading, lines + [line], gaps + [gap], messages + [Message(heading, current)],
                    Body(lines + [line], gaps + [gap], |lines|, |lines| + 1))
  {
    var cuts: seq<nat> :| CutAt(heading, lines, gaps, messages, cuts) && AtHand(heading, lines, gaps, current, cuts[|messages|]);
    CutStill(heading, lines, gaps, messages, cuts, line, gap);
    CutOnceMore(heading, lines, gaps, messages, current, cuts, line, gap);
    BodyOfOne(lines, gaps, line, gap);
  }

  lemma CutOnceMore(
    heading: string, lines: seq<string>, gaps: seq<bool>, messages: seq<string>, current: seq<string>, cuts: seq<nat>,
    line: string, gap: bool)
    requires CutAt(heading, lines + [line], gaps + [gap], messages, cuts) && current != []
    requires AtHand(heading, lines, gaps, current, cuts[|messages|]) && !Fits(heading, current + (Gap(gap) + [line]))
    ensures CutAt(heading, lines + [line], gaps + [gap], messages + [Message(heading, current)], cuts + [|lines|])
  {
    BodiesOfMore(lines, gaps, line, gap, cuts[|messages|]);
    assert Holds(heading, lines + [line], gaps + [gap], cuts[|messages|], |lines|, Message(heading, current));
  }

  lemma BodyOfOne(lines: seq<string>, gaps: seq<bool>, line: string, gap: bool)
    requires |lines| == |gaps|
    ensures Body(lines + [line], gaps + [gap], |lines|, |lines| + 1) == Opening(Move(Track(lines), line), line)
    ensures Body(lines + [line], gaps + [gap], |lines|, |lines| + 1) != []
  {
    assert (lines + [line])[..|lines| + 1] == lines + [line];
    TrackSnoc(lines, line);
  }

  /** What the next line does to the message at hand. */
  lemma FillingTakes(
    heading: string, lines: seq<string>, gaps: seq<bool>, messages: seq<string>, current: seq<string>, line: string,
    separator: seq<string>)
    requires Filling(heading, lines, gaps, messages, current)
    requires separator == [] || (separator == [""] && current != [])
    ensures if current != [] && !Fits(heading, current + (separator + [line]))
            then Filling(heading, lines + [line], gaps + [separator != []], messages + [Message(heading, current)],
                         Opening(Move(Track(lines), line), line))
            else Filling(heading, lines + [line], gaps + [separator != []], messages, current + (separator + [line]))
  {
    assert Gap(separator != []) == separator;
    SomethingAtHand(heading, lines, gaps, messages, current);
    if current == [] {
      assert lines + [line] == [line] && gaps + [false] == [false] && current + (separator + [line]) == [line];
      FillingBegins(heading, messages, line);
    } else if Fits(heading, current + (separator + [line])) {
      FillingGoesOn(heading, lines, gaps, messages, current, line, separator != []);
    } else {
      FillingStartsAnew(heading, lines, gaps, messages, current, line, separator != []);
      BodyOfOne(lines, gaps, line, separator != []);
    }
  }

  lemma FillingEnds(heading: string, lines: seq<string>, gaps: seq<bool>, messages: seq<string>, current: seq<string>)
    requires Filling(heading, lines, gaps, messages, current)
    ensures Filled(heading, lines, gaps, if current == [] then messages else messages + [Message(heading, current)])
  {
    var cuts: seq<nat> :| CutAt(heading, lines, gaps, messages, cuts) && AtHand(heading, lines, gaps, current, cuts[|messages|]);
    if current != [] {
      var messages' := messages + [Message(heading, current)];
      assert CutAt(heading, lines, gaps, messages', cuts + [|lines|]);
    }
  }

  /** Where the blocks leave a gap: before the first line of each that is not the first. */
  function Gaps(blocks: seq<seq<string>>): (gaps: seq<bool>)
    ensures |gaps| == |Flatten(blocks)|
  {
    if blocks == [] then []
    else
      var n := |blocks| - 1;
      FlattenSnoc(blocks[..n], blocks[n]);
      assert blocks == blocks[..n] + [blocks[n]];
      Gaps(blocks[..n]) + BlockGaps(blocks[n], Flatten(blocks[..n]) != [])
  }

  function BlockGaps(block: seq<string>, gap: bool): (gaps: seq<bool>)
    ensures |gaps| == |block|
  {
    if block == [] then [] else BlockGaps(block[..|block| - 1], gap) + [|block| == 1 && gap]
  }

  lemma FillingFromNothing(heading: string)
    ensures Filling(heading, [], [], [], [])
  {
    assert CutAt(heading, [], [], [], [0]);
  }

  lemma SomethingAtHand(heading: string, lines: seq<string>, gaps: seq<bool>, messages: seq<string>, current: seq<string>)
    requires Filling(heading, lines, gaps, messages, current)
    ensures |gaps| == |lines| && (current == [] <==> lines == [])
  {
  }

  lemma GapsTakeNext(blocks: seq<seq<string>>, i: nat)
    requires i < |blocks|
    ensures Gaps(blocks[..i + 1]) == Gaps(blocks[..i]) + BlockGaps(blocks[i], Flatten(blocks[..i]) != [])
  {
    assert blocks[..i + 1][..i] == blocks[..i];
  }

  // ---------------------------------------------------------------------------
  // A text that fits
  // ---------------------------------------------------------------------------

  lemma FitsShorter(heading: string, body: seq<string>, more: seq<string>)
    requires Fits(heading, body + more)
    ensures Fits(heading, body)
  {
    JoinLength([heading, ""] + body);
    JoinLength([heading, ""] + (body + more));
    WeightAppend([heading, ""], body);
    WeightAppend([heading, ""], body + more);
    WeightAppend(body, more);
  }

  lemma {:induction false} EarlierFits(heading: string, lines: seq<string>, gaps: seq<bool>, start: nat, k: nat, stop: nat)
    requires start < k <= stop <= |lines| == |gaps| && Fits(heading, Body(lines, gaps, start, stop))
    ensures Fits(heading, Body(lines, gaps, start, k))
    decreases stop
  {
    if k < stop {
      FitsShorter(heading, Body(lines, gaps, start, stop - 1), Gap(gaps[stop - 1]) + [lines[stop - 1]]);
      EarlierFits(heading, lines, gaps, start, k, stop - 1);
    }
  }

  /** All lines in one message. */
  function InOne(lines: seq<string>, gaps: seq<bool>): seq<string>
    requires |lines| == |gaps|
  {
    if lines == [] then []
    else
      var n := |lines| - 1;
      InOne(lines[..n], gaps[..n]) + (Gap(gaps[n] && n > 0) + [lines[n]])
  }

  /** The blocks as one text, a blank line between them. */
  function Whole(blocks: seq<seq<string>>): seq<string> { InOne(Flatten(blocks), Gaps(blocks)) }

  lemma {:induction false} BodyIsInOne(lines: seq<string>, gaps: seq<bool>, stop: nat)
    requires 0 < stop <= |lines| == |gaps|
    ensures Body(lines, gaps, 0, stop) == InOne(lines[..stop], gaps[..stop])
  {
    assert lines[..stop][..stop - 1] == lines[..stop - 1] && gaps[..stop][..stop - 1] == gaps[..stop - 1];
    if stop == 1 {
      assert lines[..1] == [lines[0]];
      FirstOfAll(lines[0]);
    } else {
      BodyIsInOne(lines, gaps, stop - 1);
    }
  }

  lemma FirstOfAll(line: string)
    ensures Opening(Track([line]), line) == [line]
  {
    assert [line][..0] == [];
    assert Track([line]) == Move(NOWHERE, line);
    FirstOpening(line);
  }

  lemma OneHoldsAll(heading: string, lines: seq<string>, gaps: seq<bool>, messages: seq<string>)
    requires Filled(heading, lines, gaps, messages) && |lines| == |gaps| && lines != []
    requires Fits(heading, Body(lines, gaps, 0, |lines|))
    ensures messages == [Message(heading, Body(lines, gaps, 0, |lines|))]
  {
    var cuts: seq<nat> :| CutAt(heading, lines, gaps, messages, cuts) && cuts[|messages|] == |lines|;
    assert Holds(heading, lines, gaps, cuts[0], cuts[1], messages[0]);
    if cuts[1] < |lines| {
      EarlierFits(heading, lines, gaps, 0, cuts[1] + 1, |lines|);
      assert false;
    }
    assert |messages| > 1 ==> Holds(heading, lines, gaps, cuts[1], cuts[2], messages[1]);
  }

  lemma OneMessage(heading: string, blocks: seq<seq<string>>, messages: seq<string>)
    requires Filled(heading, Flatten(blocks), Gaps(blocks), messages)
    ensures Flatten(blocks) != [] && Fits(heading, Whole(blocks)) ==> messages == [Message(heading, Whole(blocks))]
  {
    var lines, gaps := Flatten(blocks), Gaps(blocks);
    if lines != [] && Fits(heading, Whole(blocks)) {
      BodyIsInOne(lines, gaps, |lines|);
      assert lines[..|lines|] == lines && gaps[..|gaps|] == gaps;
      OneHoldsAll(heading, lines, gaps, messages);
    }
  }

  /** Everything true between two lines. */
  ghost predicate Sound(
    heading: string, all: seq<string>, done: seq<string>, messages: seq<string>, current: seq<string>, place: Place)
  {
    && place == Track(done) && (current == [] ==> done == [] && messages == [])
    && Says(heading, done, messages, current, place)
    && Short(heading, all, messages, current) && Headed(heading, messages)
  }

  lemma ClosedIsShortAndHeaded(heading: string, all: seq<string>, messages: seq<string>, current: seq<string>)
    requires Short(heading, all, messages, current) && Headed(heading, messages) && current != []
    ensures Short(heading, all, messages + [Message(heading, current)], [])
    ensures Headed(heading, messages + [Message(heading, current)])
  {
    if EveryOpeningFits(heading, all) {
      MessageWithinLimit(heading, current);
    }
    if RStrip(heading) == heading {
      MessageStartsWithHeading(heading, current);
    }
  }

  lemma SoundReopened(
    heading: string, all: seq<string>, done: seq<string>, messages: seq<string>, current: seq<string>, place: Place,
    line: string)
    requires Sound(heading, all, done, messages, current, place) && current != [] && done + [line] <= all
    ensures Sound(heading, all, done + [line], messages + [Message(heading, current)],
                  Opening(Move(place, line), line), Move(place, line))
  {
    TrackSnoc(done, line);
    SaysReopened(heading, done, messages, current, place, line);
    ClosedIsShortAndHeaded(heading, all, messages, current);
    if EveryOpeningFits(heading, all) {
      NextOpeningFits(heading, all, done, line);
    }
  }

  lemma SoundAppended(
    heading: string, all: seq<string>, done: seq<string>, messages: seq<string>, current: seq<string>, place: Place,
    line: string, separator: seq<string>)
    requires Sound(heading, all, done, messages, current, place) && done + [line] <= all
    requires separator == [] || (separator == [""] && current != [])
    requires current == [] || Fits(heading, current + (separator + [line]))
    ensures Sound(heading, all, done + [line], messages, current + (separator + [line]), Move(place, line))
  {
    TrackSnoc(done, line);
    SaysAppended(heading, done, messages, current, place, line, separator);
    if EveryOpeningFits(heading, all) && current == [] {
      NextOpeningFits(heading, all, done, line);
      FirstOpening(line);
      assert current + (separator + [line]) == [line];
    }
  }

  lemma FirstOpening(line: string)
    ensures Opening(Move(NOWHERE, line), line) == [line]
  {
  }

  // ---------------------------------------------------------------------------
  // The loop
  // ---------------------------------------------------------------------------

  /** Everything true between two lines, said of all lines that equal the given ones, so that the
      loops do not unfold it. */
  ghost predicate Laid(
    heading: string, all: seq<string>, done: seq<string>, gaps: seq<bool>, messages: seq<string>, current: seq<string>,
    place: Place)
  {
    forall d | d == done ::
      Sound(heading, all, d, messages, current, place) && Filling(heading, d, gaps, messages, current)
  }

  /** One line of a block: the body of the inner loop. */
  method AddLine(
    heading: string, before: seq<string>, body: seq<string>, start: Place,
    line: string, separator: seq<string>, ghost done: seq<string>, ghost all: seq<string>, ghost gaps: seq<bool>)
    returns (messages: seq<string>, current: seq<string>, place: Place)
    requires Laid(heading, all, done, gaps, before, body, start) && done + [line] <= all
    requires separator == [] || (separator == [""] && body != [])
    ensures current != [] && Laid(heading, all, done + [line], gaps + [separator != []], messages, current, place)
  {
    assert Sound(heading, all, done, before, body, start);
    messages, current, place := before, body, Move(start, line);
    var addition := separator + [line];
    FillingTakes(heading, done, gaps, messages, current, line, separator);
    if current != [] && !Fits(heading, current + addition) {
      SoundReopened(heading, all, done, messages, current, start, line);
      messages := messages + [Message(heading, current)];
      current := Context(place);
      // A line that moves the place is part of the new context, and must not be said twice.
      addition := if current != [] && current[|current| - 1] == line then [] else [line];
      assert current + addition == Opening(place, line);
    } else {
      SoundAppended(heading, all, done, messages, current, start, line, separator);
    }
    current := current + addition;
  }

  /** One block: the inner loop. */
  method AddBlock(
    heading: string, before: seq<string>, body: seq<string>, start: Place,
    block: seq<string>, gap: seq<string>, ghost done: seq<string>, ghost all: seq<string>, ghost gaps: seq<bool>)
    returns (messages: seq<string>, current: seq<string>, place: Place)
    requires Laid(heading, all, done, gaps, before, body, start) && done + block <= all
    requires gap == [] || (gap == [""] && body != [])
    ensures Laid(heading, all, done + block, gaps + BlockGaps(block, gap != []), messages, current, place)
  {
    messages, current, place := before, body, start;
    var separator := gap;
    assert done + block[..0] == done && gaps + BlockGaps(block[..0], gap != []) == gaps;
    for k := 0 to |block|
      invariant separator == if k == 0 then gap else []
      invariant current == [] ==> k == 0 && body == []
      invariant Laid(heading, all, done + block[..k], gaps + BlockGaps(block[..k], gap != []), messages, current, place)
    {
      NextLine(done, block, k, all);
      NextGap(gaps, block, k, separator, gap);
      messages, current, place :=
        AddLine(heading, messages, current, place, block[k], separator, done + block[..k], all,
                gaps + BlockGaps(block[..k], gap != []));
      separator := [];
    }
    assert block[..|block|] == block;
  }

  lemma NextGap(gaps: seq<bool>, block: seq<string>, k: nat, separator: seq<string>, gap: seq<string>)
    requires k < |block| && separator == if k == 0 then gap else []
    ensures gaps + BlockGaps(block[..k + 1], gap != []) == gaps + BlockGaps(block[..k], gap != []) + [separator != []]
  {
    assert block[..k + 1][..k] == block[..k];
  }

  /** What the finished messages promise about the lines they were made from. */
  ghost predicate Conveys(heading: string, lines: seq<string>, messages: seq<string>) {
    SectionOfHeading(heading).Some? && (forall l <- lines :: OneLine(l)) ==>
      var base := SectionOfHeading(heading).value;
      var whole := ReadLines(base, Start(base), lines);
      whole.Reading? ==> ReadMessages(messages) == Some(whole.entries)
  }

  /**
   From blocks of lines to messages: whole lines fill a message up to the limit.

   Whatever the blocks say to a reader, the messages say, each read on its own;
   every message starts with the heading; and if every line fits into a message
   together with its context, no message is too long.  A message ends only where the next
   line would not have fitted any more, so a text that fits is one message.
   */
  method Chunked(heading: string, blocks: seq<seq<string>>) returns (messages: seq<string>)
    ensures Conveys(heading, Flatten(blocks), messages)
    ensures EveryOpeningFits(heading, Flatten(blocks)) ==> AllWithinLimit(messages)
    ensures Headed(heading, messages)
    ensures Filled(heading, Flatten(blocks), Gaps(blocks), messages)
    ensures Flatten(blocks) != [] && Fits(heading, Whole(blocks)) ==> messages == [Message(heading, Whole(blocks))]
  {
    messages := [];
    var current: seq<string> := [];
    var place := NOWHERE;
    ghost var all := Flatten(blocks);
    ghost var done: seq<string> := [];
    LaidFromNothing(heading, all);
    for index := 0 to |blocks|
      invariant done == Flatten(blocks[..index]) && (index == 0 ==> current == [])
      invariant Laid(heading, all, done, Gaps(blocks[..index]), messages, current, place)
    {
      var block := blocks[index];
      var separator := if index > 0 && current != [] then [""] else [];
      FlattenTakesNext(blocks, index);
      GapsTakeNext(blocks, index);
      LaidSomething(heading, all, done, Gaps(blocks[..index]), messages, current, place);
      messages, current, place := AddBlock(heading, messages, current, place, block, separator, done, all, Gaps(blocks[..index]));
      done := done + block;
    }
    assert blocks[..|blocks|] == blocks;
    assert Sound(heading, all, all, messages, current, place);
    Finish(heading, all, messages, current, place);
    FillingEnds(heading, all, Gaps(blocks), messages, current);
    OneMessage(heading, blocks, if current == [] then messages else messages + [Message(heading, current)]);
    if current != [] {
      messages := messages + [Message(heading, current)];
    }
  }

  lemma LaidFromNothing(heading: string, all: seq<string>)
    ensures Laid(heading, all, [], [], [], [], NOWHERE)
  {
    FillingFromNothing(heading);
  }

  lemma LaidSomething(
    heading: string, all: seq<string>, done: seq<string>, gaps: seq<bool>, messages: seq<string>, current: seq<string>,
    place: Place)
    requires Laid(heading, all, done, gaps, messages, current, place)
    ensures current == [] <==> done == []
  {
    SomethingAtHand(heading, done, gaps, messages, current);
  }

  lemma NextLine(before: seq<string>, block: seq<string>, k: nat, all: seq<string>)
    requires k < |block| && before + block <= all
    ensures before + block[..k + 1] == before + block[..k] + [block[k]] <= all
  {
  }

  lemma Finish(heading: string, all: seq<string>, messages: seq<string>, current: seq<string>, place: Place)
    requires Sound(heading, all, all, messages, current, place)
    ensures forall sent | sent == if current == [] then messages else messages + [Message(heading, current)] ::
              && Conveys(heading, all, sent) && Headed(heading, sent)
              && (EveryOpeningFits(heading, all) ==> AllWithinLimit(sent))
  {
    if current != [] {
      ClosedIsShortAndHeaded(heading, all, messages, current);
      if SectionOfHeading(heading).Some? && forall l <- all :: OneLine(l) {
        var base := SectionOfHeading(heading).value;
        if ReadLines(base, Start(base), all).Reading? {
          MessageClosed(heading, all, messages, current, place);
        }
      }
    }
  }
}
