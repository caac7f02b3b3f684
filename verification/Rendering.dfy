/**
 One notification for one availability change (notifications/templates_uk.py,
 _combined_blocks and render_availability), and what a reader gets from it.
 */
module Rendering {
  import opened Common
  import opened Calendar
  import opened Slots
  import opened Sorting
  import opened Text
  import opened Reader
  import opened Chunking
  import opened Templates

  // ---------------------------------------------------------------------------
  // Both kinds of change under each centre
  // ---------------------------------------------------------------------------

  type Sections = map<string, seq<AvailableSlot>>

  /** `dict(groups)`: of two groups with one name the later wins. */
  function ToMap(groups: seq<Group>): Sections {
    if groups == [] then map[]
    else ToMap(groups[..|groups| - 1])[groups[|groups| - 1].centre := groups[|groups| - 1].slots]
  }

  function Lookup(m: Sections, centre: string): seq<AvailableSlot> {
    if centre in m then m[centre] else []
  }

  function Names(groups: seq<Group>): seq<string> { Map(groups, (g: Group) => g.centre) }

  /** Every centre with a change, in report order. */
  function CentreList(added: seq<Group>, removed: seq<Group>): seq<string> {
    Sort(Distinct(Names(added) + Names(removed)), CentreLeq)
  }

  function CombinedBlock(centre: string, added: Sections, removed: Sections): seq<string> {
    [CentreTitle(centre), ""]
    + (if centre in added then [ADDED_SECTION] + DateLines(added[centre], Added) else [])
    + (if centre in added && centre in removed then [""] else [])
    + (if centre in removed then [REMOVED_SECTION] + DateLines(removed[centre], Removed) else [])
  }

  function CombinedBlocksOf(centres: seq<string>, added: Sections, removed: Sections): seq<seq<string>> {
    if centres == [] then []
    else CombinedBlocksOf(centres[..|centres| - 1], added, removed)
         + [CombinedBlock(centres[|centres| - 1], added, removed)]
  }

  method CombinedBlockFor(centre: string, added: Sections, removed: Sections) returns (block: seq<string>)
    ensures block == CombinedBlock(centre, added, removed)
  {
    block := [CentreTitle(centre), ""];
    if centre in added {
      var lines := DateLinesOf(added[centre], Added);
      block := block + ([ADDED_SECTION] + lines);
      if centre in removed {
        block := block + [""];
      }
    }
    if centre in removed {
      var lines := DateLinesOf(removed[centre], Removed);
      block := block + ([REMOVED_SECTION] + lines);
    }
  }

  method CombinedBlocks(diff: AvailabilityDiff) returns (blocks: seq<seq<string>>)
    ensures var added, removed := ByCentre(diff.added), ByCentre(diff.removed);
            blocks == CombinedBlocksOf(CentreList(added, removed), ToMap(added), ToMap(removed))
  {
    var added, removed := ToMap(ByCentre(diff.added)), ToMap(ByCentre(diff.removed));
    var centres := CentreList(ByCentre(diff.added), ByCentre(diff.removed));
    blocks := [];
    for i := 0 to |centres|
      invariant blocks == CombinedBlocksOf(centres[..i], added, removed)
    {
      var block := CombinedBlockFor(centres[i], added, removed);
      assert centres[..i + 1] == centres[..i] + [centres[i]];
      blocks := blocks + [block];
    }
    assert centres[..|centres|] == centres;
  }

  /** What a reader finds in the combined blocks. */
  function CombinedEntries(centres: seq<string>, added: Sections, removed: Sections): seq<Entry> {
    if centres == [] then []
    else
      var c := centres[|centres| - 1];
      CombinedEntries(centres[..|centres| - 1], added, removed)
      + Entries(Added, Lookup(added, c)) + Entries(Removed, Lookup(removed, c))
  }

  ghost predicate WellFiled(m: Sections) { forall c <- m :: AllAt(c, m[c]) }

  lemma SectionReads(r: Reading, mark: Mark, slots: seq<AvailableSlot>)
    requires r.Reading? && r.centre.Some? && AllAt(r.centre.value, slots)
    ensures ReadLines(None, r, [mark.Section()] + DateLines(slots, mark)) ==
            Read(r.(section := Some(mark), day := None), slots, mark)
  {
    var next := r.(section := Some(mark), day := None);
    assert ReadLine(None, r, mark.Section()) == next by {
      assert mark.Section()[0] != CENTRE_PREFIX[0];
      assert ADDED_SECTION[0] != REMOVED_SECTION[0];
    }
    assert ([mark.Section()] + DateLines(slots, mark))[1..] == DateLines(slots, mark);
    DateLinesRead(None, next, slots, mark);
  }

  lemma CombinedBlockReads(r: Reading, centre: string, added: Sections, removed: Sections)
    requires r.Reading? && WellFiled(added) && WellFiled(removed)
    ensures var r' := ReadLines(None, r, CombinedBlock(centre, added, removed));
            r'.Reading? && r'.entries ==
                           r.entries + Entries(Added, Lookup(added, centre)) + Entries(Removed, Lookup(removed, centre))
  {
    var titled := Reading(Some(centre), None, None, r.entries);
    var first := if centre in added then [ADDED_SECTION] + DateLines(added[centre], Added) else [];
    var gap := if centre in added && centre in removed then [""] else [];
    var second := if centre in removed then [REMOVED_SECTION] + DateLines(removed[centre], Removed) else [];
    assert [CentreTitle(centre)] + [""] == [CentreTitle(centre), ""] && [""] + [] == [""];
    ReadLinesAppend(None, r, [CentreTitle(centre), ""], first);
    assert r.entries + [] == r.entries;
    if centre in added {
      SectionReads(titled, Added, added[centre]);
    }
    var middle := ReadLines(None, titled, first);
    assert middle.Reading? && middle.centre == Some(centre)
           && middle.entries == r.entries + Entries(Added, Lookup(added, centre));
    ReadLinesAppend(None, r, [CentreTitle(centre), ""] + first, gap);
    ReadLinesAppend(None, r, [CentreTitle(centre), ""] + first + gap, second);
    if centre in removed {
      SectionReads(middle, Removed, removed[centre]);
    } else {
      assert middle.entries + [] == middle.entries;
    }
  }

  lemma {:induction false} CombinedBlocksRead(centres: seq<string>, added: Sections, removed: Sections)
    requires WellFiled(added) && WellFiled(removed)
    ensures var r := ReadLines(None, Start(None), Flatten(CombinedBlocksOf(centres, added, removed)));
            r.Reading? && r.entries == CombinedEntries(centres, added, removed)
  {
    if centres != [] {
      var n := |centres| - 1;
      CombinedBlocksRead(centres[..n], added, removed);
      var lines := Flatten(CombinedBlocksOf(centres[..n], added, removed));
      var block := CombinedBlock(centres[n], added, removed);
      FlattenSnoc(CombinedBlocksOf(centres[..n], added, removed), block);
      ReadLinesAppend(None, Start(None), lines, block);
      CombinedBlockReads(ReadLines(None, Start(None), lines), centres[n], added, removed);
    }
  }

  lemma CombinedBlockIsOneLine(centre: string, added: Sections, removed: Sections)
    requires OneLine(centre)
    ensures forall l <- CombinedBlock(centre, added, removed) :: OneLine(l)
  {
    if centre in added {
      DateLinesAreOneLine(added[centre], Added);
    }
    if centre in removed {
      DateLinesAreOneLine(removed[centre], Removed);
    }
  }

  lemma {:induction false} CombinedBlocksAreOneLine(centres: seq<string>, added: Sections, removed: Sections)
    requires forall c <- centres :: OneLine(c)
    ensures forall l <- Flatten(CombinedBlocksOf(centres, added, removed)) :: OneLine(l)
  {
    if centres != [] {
      var n := |centres| - 1;
      CombinedBlocksAreOneLine(centres[..n], added, removed);
      FlattenSnoc(CombinedBlocksOf(centres[..n], added, removed), CombinedBlock(centres[n], added, removed));
      CombinedBlockIsOneLine(centres[n], added, removed);
    }
  }

  // ---------------------------------------------------------------------------
  // Nothing lost, nothing out of order
  // ---------------------------------------------------------------------------

  function Gather(centres: seq<string>, m: Sections): seq<AvailableSlot> {
    if centres == [] then [] else Gather(centres[..|centres| - 1], m) + Lookup(m, centres[|centres| - 1])
  }

  lemma OneCentreMarked(before: seq<Entry>, a: seq<AvailableSlot>, b: seq<AvailableSlot>, mark: Mark)
    ensures SlotsMarked(before + Entries(Added, a) + Entries(Removed, b), mark) ==
            SlotsMarked(before, mark) + Map(if mark == Added then a else b, Truncated)
  {
    SlotsMarkedAppend(before + Entries(Added, a), Entries(Removed, b), mark);
    SlotsMarkedAppend(before, Entries(Added, a), mark);
    EntriesMarked(Added, a, mark);
    EntriesMarked(Removed, b, mark);
    var s := SlotsMarked(before, mark);
    if mark == Added {
      assert s + Map(a, Truncated) + [] == s + Map(a, Truncated);
    } else {
      assert s + [] == s;
    }
  }

  lemma {:induction false} CombinedEntriesMarked(centres: seq<string>, added: Sections, removed: Sections, mark: Mark)
    ensures SlotsMarked(CombinedEntries(centres, added, removed), mark) ==
            Map(Gather(centres, if mark == Added then added else removed), Truncated)
  {
    if centres != [] {
      var n := |centres| - 1;
      CombinedEntriesMarked(centres[..n], added, removed, mark);
      var m := if mark == Added then added else removed;
      var a, b := Lookup(added, centres[n]), Lookup(removed, centres[n]);
      OneCentreMarked(CombinedEntries(centres[..n], added, removed), a, b, mark);
    }
  }

  /** Each centre is one run: nothing for `dict` to overwrite. */
  ghost predicate OneRunEach(groups: seq<Group>) {
    forall i, j :: 0 <= i < j < |groups| ==> groups[i].centre != groups[j].centre
  }

  /** The two files agree on every centre but one. */
  ghost predicate AgreeBut(m: Sections, other: Sections, c: string) {
    forall x :: x != c ==> Lookup(m, x) == Lookup(other, x)
  }

  lemma {:induction false} GatherUntouched(centres: seq<string>, m: Sections, other: Sections, c: string)
    requires c !in centres && AgreeBut(m, other, c)
    ensures Gather(centres, other) == Gather(centres, m)
  {
    if centres != [] {
      var n := |centres| - 1;
      assert centres[n] in centres && forall x <- centres[..n] :: x in centres;
      GatherUntouched(centres[..n], m, other, c);
    }
  }

  lemma GatherLast(centres: seq<string>, m: Sections)
    requires centres != []
    ensures var n := |centres| - 1;
            multiset(Gather(centres, m)) == multiset(Gather(centres[..n], m)) + multiset(Lookup(m, centres[n]))
  {
  }

  /** Filing a run under its centre trades whatever was filed there before for it. */
  lemma {:induction false} GatherUpdated(centres: seq<string>, m: Sections, other: Sections, c: string)
    requires NoRepeats(centres) && c in centres && AgreeBut(m, other, c)
    ensures multiset(Gather(centres, other)) + multiset(Lookup(m, c))
            == multiset(Gather(centres, m)) + multiset(Lookup(other, c))
  {
    var n := |centres| - 1;
    GatherLast(centres, m);
    GatherLast(centres, other);
    if centres[n] == c {
      assert c !in centres[..n];
      GatherUntouched(centres[..n], m, other, c);
    } else {
      assert c in centres[..n] && Lookup(m, centres[n]) == Lookup(other, centres[n]);
      GatherUpdated(centres[..n], m, other, c);
      Exchange(multiset(Gather(centres[..n], other)), multiset(Lookup(m, c)), multiset(Gather(centres[..n], m)),
               multiset(Lookup(other, c)), multiset(Lookup(m, centres[n])));
    }
  }

  lemma Exchange<T>(a: multiset<T>, b: multiset<T>, c: multiset<T>, d: multiset<T>, more: multiset<T>)
    requires a + b == c + d
    ensures (a + more) + b == (c + more) + d
  {
    assert (a + more) + b == (a + b) + more && (c + more) + d == (c + d) + more;
  }

  lemma {:induction false} MapNames(groups: seq<Group>)
    requires WellGrouped(groups)
    ensures ToMap(groups).Keys == set g <- groups :: g.centre
    ensures WellFiled(ToMap(groups)) && forall c <- ToMap(groups) :: ToMap(groups)[c] != []
  {
    if groups != [] {
      var n := |groups| - 1;
      assert groups == groups[..n] + [groups[n]] && groups[n] in groups;
      MapNames(groups[..n]);
    }
  }

  lemma {:induction false} GatherEmpty(centres: seq<string>)
    ensures Gather(centres, map[]) == []
  {
    if centres != [] {
      GatherEmpty(centres[..|centres| - 1]);
    }
  }

  /** Whether the last group repeats the name of an earlier one. */
  lemma LastRunRepeats(groups: seq<Group>, last: Group)
    requires WellGrouped(groups)
    ensures OneRunEach(groups + [last]) <==> OneRunEach(groups) && last.centre !in ToMap(groups)
  {
    var all := groups + [last];
    MapNames(groups);
    if last.centre in ToMap(groups) {
      var g :| g in groups && g.centre == last.centre;
      var i :| 0 <= i < |groups| && groups[i] == g;
      assert all[i].centre == all[|groups|].centre;
    } else if OneRunEach(groups) {
      forall i, j | 0 <= i < j < |all| ensures all[i].centre != all[j].centre {
        assert all[i] in groups;
        assert all[i].centre in ToMap(groups);
        if j < |groups| {
          assert groups[i].centre != groups[j].centre;
        }
      }
    }
    if OneRunEach(all) {
      forall i, j | 0 <= i < j < |groups| ensures groups[i].centre != groups[j].centre {
        assert all[i].centre != all[j].centre;
      }
    }
  }

  /** Filing groups by centre keeps every slot exactly when no centre comes back. */
  lemma {:induction false} GatherKeepsAllIff(centres: seq<string>, groups: seq<Group>)
    requires NoRepeats(centres) && WellGrouped(groups) && forall g <- groups :: g.centre in centres
    ensures KeepsAllIf(OneRunEach(groups), Gather(centres, ToMap(groups)), SlotsOf(groups))
  {
    if groups == [] {
      GatherEmpty(centres);
    } else {
      var n := |groups| - 1;
      var last := groups[n];
      assert groups == groups[..n] + [last] && last in groups;
      assert forall g <- groups[..n] :: g in groups;
      GatherKeepsAllIff(centres, groups[..n]);
      GatherOneMore(centres, groups[..n], last);
    }
  }

  lemma GatherOneMore(centres: seq<string>, groups: seq<Group>, last: Group)
    requires NoRepeats(centres) && WellGrouped(groups) && last.centre in centres && last.slots != []
    requires KeepsAllIf(OneRunEach(groups), Gather(centres, ToMap(groups)), SlotsOf(groups))
    ensures forall all | all == groups + [last] ::
              KeepsAllIf(OneRunEach(all), Gather(centres, ToMap(all)), SlotsOf(all))
  {
    var m := ToMap(groups);
    assert (groups + [last])[..|groups|] == groups;
    MapNames(groups);
    LastRunRepeats(groups, last);
    SlotsOfSnoc(groups, last);
    GatherUpdated(centres, m, m[last.centre := last.slots], last.centre);
    OneMoreRun(Gather(centres, m[last.centre := last.slots]), Lookup(m, last.centre), Gather(centres, m), last.slots,
               SlotsOf(groups), OneRunEach(groups));
  }

  /** Everything is kept if `single`, and something is missing otherwise. */
  ghost predicate KeepsAllIf<T>(single: bool, kept: seq<T>, all: seq<T>) {
    if single then multiset(kept) == multiset(all) else |kept| < |all|
  }

  lemma OneMoreRun<T>(now: seq<T>, replaced: seq<T>, before: seq<T>, run: seq<T>, all: seq<T>, single: bool)
    requires KeepsAllIf(single, before, all) && multiset(now) + multiset(replaced) == multiset(before) + multiset(run)
    ensures KeepsAllIf(single && replaced == [], now, all + run)
  {
    CountsAdd(now, replaced, before, run, all);
    if single {
      assert |multiset(before)| == |multiset(all)|;
    }
  }

  /** The new run replaces the old one, if there was an old one. */
  lemma CountsAdd<T>(now: seq<T>, replaced: seq<T>, before: seq<T>, run: seq<T>, all: seq<T>)
    requires multiset(now) + multiset(replaced) == multiset(before) + multiset(run)
    ensures |now| + |replaced| == |before| + |run|
    ensures replaced == [] && multiset(before) == multiset(all) ==> multiset(now) == multiset(all + run)
  {
    SameSize(now, replaced, before, run);
    assert multiset(all + run) == multiset(all) + multiset(run);
  }

  lemma SameSize<T>(a: seq<T>, b: seq<T>, c: seq<T>, d: seq<T>)
    requires multiset(a) + multiset(b) == multiset(c) + multiset(d)
    ensures |a| + |b| == |c| + |d|
  {
    assert |multiset(a) + multiset(b)| == |a| + |b|;
    assert |multiset(c) + multiset(d)| == |c| + |d|;
  }

  // ---------------------------------------------------------------------------
  // Order
  // ---------------------------------------------------------------------------

  function Only(slots: seq<AvailableSlot>, centre: string): seq<AvailableSlot> {
    if slots == [] then []
    else (if slots[0].centre == centre then [slots[0]] else []) + Only(slots[1..], centre)
  }

  function Without(slots: seq<AvailableSlot>, centre: string): seq<AvailableSlot> {
    if slots == [] then []
    else (if slots[0].centre == centre then [] else [slots[0]]) + Without(slots[1..], centre)
  }

  lemma {:induction false} OnlyAppend(a: seq<AvailableSlot>, b: seq<AvailableSlot>, centre: string)
    ensures Only(a + b, centre) == Only(a, centre) + Only(b, centre)
  {
    if a == [] {
      assert a + b == b;
    } else {
      assert (a + b)[1..] == a[1..] + b;
      OnlyAppend(a[1..], b, centre);
      Associative(if a[0].centre == centre then [a[0]] else [], Only(a[1..], centre), Only(b, centre));
    }
  }

  lemma {:induction false} OnlyOfOne(slots: seq<AvailableSlot>, at: string, centre: string)
    requires AllAt(at, slots)
    ensures Only(slots, centre) == if at == centre then slots else []
  {
    if slots != [] {
      assert slots[0] in slots && forall s <- slots[1..] :: s in slots;
      OnlyOfOne(slots[1..], at, centre);
    }
  }

  lemma OnlyOneRunMore(slots: seq<AvailableSlot>, run: seq<AvailableSlot>, at: string, centre: string)
    requires AllAt(at, run)
    ensures Only(slots + run, centre) == if at == centre then Only(slots, centre) + run else Only(slots, centre)
  {
    OnlyAppend(slots, run, centre);
    OnlyOfOne(run, at, centre);
    assert Only(slots, centre) + [] == Only(slots, centre);
  }

  /** With one run each, the map files exactly the slots of each centre. */
  lemma {:induction false} LookupIsOnly(groups: seq<Group>, centre: string)
    requires WellGrouped(groups) && OneRunEach(groups)
    ensures Lookup(ToMap(groups), centre) == Only(SlotsOf(groups), centre)
  {
    if groups != [] {
      var n := |groups| - 1;
      var last := groups[n];
      assert groups == groups[..n] + [last] && last in groups;
      LastRunRepeats(groups[..n], last);
      LookupIsOnly(groups[..n], centre);
      SlotsOfSnoc(groups[..n], last);
      OnlyOneRunMore(SlotsOf(groups[..n]), last.slots, last.centre, centre);
      if last.centre == centre {
        MapNames(groups[..n]);
        assert Lookup(ToMap(groups[..n]), centre) == [] && [] + last.slots == last.slots;
      }
    }
  }

  lemma {:induction false} NamesAreCentres(groups: seq<Group>)
    requires WellGrouped(groups)
    ensures forall c :: (exists g :: g in groups && g.centre == c) <==> c in CentresOf(SlotsOf(groups))
  {
    if groups != [] {
      var g0 := groups[0];
      assert g0 in groups && groups == [g0] + groups[1..];
      NamesAreCentres(groups[1..]);
      assert g0.slots[0] in g0.slots;
      assert SlotsOf(groups) == g0.slots + SlotsOf(groups[1..]);
      forall c ensures (exists g :: g in groups && g.centre == c) <==> c in CentresOf(SlotsOf(groups)) {
        if exists g :: g in groups && g.centre == c {
          var g :| g in groups && g.centre == c;
          if g == g0 {
            assert g0.slots[0] in SlotsOf(groups);
          } else {
            assert g in groups[1..];
            assert c in CentresOf(SlotsOf(groups[1..]));
          }
        }
        if c in CentresOf(SlotsOf(groups)) && c != g0.centre {
          assert c in CentresOf(SlotsOf(groups[1..]));
          var g :| g in groups[1..] && g.centre == c;
          assert g in groups;
        }
      }
    }
  }

  /** In report order, a centre with a place of its own never comes back. */
  lemma CentreDoesNotReturn(slots: seq<AvailableSlot>)
    requires Sorted(slots, SlotLeq) && Canonical(CentresOf(slots))
    requires |slots| > 1 && slots[1].centre != slots[0].centre
    ensures slots[0].centre !in CentresOf(slots[1..])
  {
    assert slots[0] in slots && slots[1] in slots;
    assert slots[0].centre in CentresOf(slots) && slots[1].centre in CentresOf(slots);
    assert SlotLeq(slots[0], slots[1]);
    forall k | 1 <= k < |slots| ensures slots[k].centre != slots[0].centre {
      assert k == 1 || SlotLeq(slots[1], slots[k]);
    }
  }

  lemma {:induction false} SortedMeansOneRunEach(slots: seq<AvailableSlot>)
    requires Sorted(slots, SlotLeq) && Canonical(CentresOf(slots))
    ensures OneRunEach(Runs(slots))
  {
    if |slots| > 1 {
      var rest := Runs(slots[1..]);
      assert CentresOf(slots[1..]) <= CentresOf(slots);
      SortedMeansOneRunEach(slots[1..]);
      RunsKeepEverything(slots[1..]);
      assert rest[0].centre == slots[1].centre;
      if rest[0].centre != slots[0].centre {
        CentreDoesNotReturn(slots);
        NewNameInFront(Group(slots[0].centre, [slots[0]]), rest);
      } else {
        SameNames(Group(slots[0].centre, [slots[0]] + rest[0].slots), rest);
      }
    }
  }

  lemma NewNameInFront(g: Group, rest: seq<Group>)
    requires WellGrouped(rest) && OneRunEach(rest) && g.centre !in CentresOf(SlotsOf(rest))
    ensures OneRunEach([g] + rest)
  {
    NamesAreCentres(rest);
    forall j | 0 <= j < |rest| ensures rest[j].centre != g.centre {
      assert rest[j] in rest;
      assert rest[j].centre in CentresOf(SlotsOf(rest));
    }
  }

  lemma SameNames(g: Group, rest: seq<Group>)
    requires OneRunEach(rest) && rest != [] && g.centre == rest[0].centre
    ensures OneRunEach([g] + rest[1..])
  {
  }

  lemma {:induction false} WithoutMembers(slots: seq<AvailableSlot>, c: string)
    ensures forall s :: s in Without(slots, c) <==> s in slots && s.centre != c
  {
    if slots != [] {
      assert slots == [slots[0]] + slots[1..];
      WithoutMembers(slots[1..], c);
    }
  }

  ghost predicate ComesFirst(c: string, slots: seq<AvailableSlot>) {
    forall i :: 0 <= i < |slots| ==>
      CentreLeq(c, slots[i].centre) && (CentreLeq(slots[i].centre, c) ==> slots[i].centre == c)
  }

  /** The first centre of the order has the first slots. */
  lemma {:induction false} FirstCentreFirst(slots: seq<AvailableSlot>, c: string)
    requires Sorted(slots, SlotLeq) && ComesFirst(c, slots)
    ensures slots == Only(slots, c) + Without(slots, c) && Sorted(Without(slots, c), SlotLeq)
  {
    if slots != [] && slots[0].centre == c {
      FirstCentreFirst(slots[1..], c);
      assert slots == [slots[0]] + slots[1..];
    } else if slots != [] {
      forall i | 0 <= i < |slots| ensures slots[i].centre != c {
        assert i == 0 || SlotLeq(slots[0], slots[i]);
      }
      NoneToTakeOut(slots, c);
    }
  }

  lemma {:induction false} NoneToTakeOut(slots: seq<AvailableSlot>, c: string)
    requires forall s <- slots :: s.centre != c
    ensures Only(slots, c) == [] && Without(slots, c) == slots
  {
    if slots != [] {
      assert slots == [slots[0]] + slots[1..] && slots[0] in slots && forall s <- slots[1..] :: s in slots;
      NoneToTakeOut(slots[1..], c);
    }
  }

  lemma {:induction false} OnlyWithout(slots: seq<AvailableSlot>, c: string, d: string)
    requires c != d
    ensures Only(Without(slots, c), d) == Only(slots, d)
  {
    if slots != [] {
      OnlyWithout(slots[1..], c, d);
      if slots[0].centre != c {
        assert Without(slots, c) == [slots[0]] + Without(slots[1..], c);
        assert Without(slots, c)[1..] == Without(slots[1..], c);
      } else {
        assert Without(slots, c) == Without(slots[1..], c);
      }
    }
  }

  function OnlyEach(centres: seq<string>, slots: seq<AvailableSlot>): seq<AvailableSlot> {
    if centres == [] then [] else Only(slots, centres[0]) + OnlyEach(centres[1..], slots)
  }

  lemma {:induction false} OnlyEachWithout(centres: seq<string>, slots: seq<AvailableSlot>, c: string)
    requires c !in centres
    ensures OnlyEach(centres, Without(slots, c)) == OnlyEach(centres, slots)
  {
    if centres != [] {
      assert centres[0] in centres && forall x <- centres[1..] :: x in centres;
      OnlyWithout(slots, c, centres[0]);
      OnlyEachWithout(centres[1..], slots, c);
    }
  }

  ghost predicate Ordered(centres: seq<string>) {
    forall i, j :: 0 <= i < j < |centres| ==> CentreLeq(centres[i], centres[j]) && !SameRank(centres[i], centres[j])
  }

  lemma {:induction false} OnlyEachOfNone(centres: seq<string>)
    ensures OnlyEach(centres, []) == []
  {
    if centres != [] {
      OnlyEachOfNone(centres[1..]);
    }
  }

  /** Walking the centres in order and taking each one's slots gives back the sorted list. */
  lemma {:induction false} OnlyEachIsAll(centres: seq<string>, slots: seq<AvailableSlot>)
    requires Sorted(slots, SlotLeq) && Ordered(centres) && forall s <- slots :: s.centre in centres
    ensures OnlyEach(centres, slots) == slots
    decreases |centres|
  {
    if slots == [] {
      OnlyEachOfNone(centres);
    } else {
      assert slots[0] in slots;
      var c := centres[0];
      CentreOrderIsTotal();
      forall i | 0 <= i < |slots|
        ensures CentreLeq(c, slots[i].centre) && (CentreLeq(slots[i].centre, c) ==> slots[i].centre == c)
      {
        assert slots[i] in slots;
        var k :| 0 <= k < |centres| && centres[k] == slots[i].centre;
        assert k == 0 || (CentreLeq(centres[0], centres[k]) && !SameRank(centres[0], centres[k]));
      }
      FirstCentreFirst(slots, c);
      var rest := Without(slots, c);
      WithoutMembers(slots, c);
      forall s | s in rest ensures s.centre in centres[1..] {
        assert s.centre in centres && s.centre != c;
      }
      assert Ordered(centres[1..]);
      OnlyEachIsAll(centres[1..], rest);
      forall k | 1 <= k < |centres| ensures centres[k] != c {
        assert !SameRank(centres[0], centres[k]) && SameRank(c, c);
      }
      OnlyEachWithout(centres[1..], slots, c);
    }
  }

  lemma {:induction false} OnlyEachSnoc(centres: seq<string>, c: string, slots: seq<AvailableSlot>)
    ensures OnlyEach(centres + [c], slots) == OnlyEach(centres, slots) + Only(slots, c)
  {
    if centres == [] {
      assert [] + [c] == [c] && [c][1..] == [];
      assert OnlyEach([c], slots) == Only(slots, c) + OnlyEach([], slots);
    } else {
      assert (centres + [c])[1..] == centres[1..] + [c];
      OnlyEachSnoc(centres[1..], c, slots);
    }
  }

  lemma {:induction false} GatherIsOnlyEach(centres: seq<string>, groups: seq<Group>)
    requires WellGrouped(groups) && OneRunEach(groups)
    ensures Gather(centres, ToMap(groups)) == OnlyEach(centres, SlotsOf(groups))
  {
    if centres != [] {
      var n := |centres| - 1;
      assert centres == centres[..n] + [centres[n]];
      GatherIsOnlyEach(centres[..n], groups);
      LookupIsOnly(groups, centres[n]);
      OnlyEachSnoc(centres[..n], centres[n], SlotsOf(groups));
    }
  }

  // ---------------------------------------------------------------------------
  // The list of centres
  // ---------------------------------------------------------------------------

  lemma SortedDistinct(names: seq<string>)
    ensures var centres := Sort(Distinct(names), CentreLeq);
            NoRepeats(centres) && Sorted(centres, CentreLeq) && forall c :: c in centres <==> c in names
  {
    DistinctIsDistinct(names);
    CentreOrderIsTotal();
    SortSorts(Distinct(names), CentreLeq);
    SortMembers(Distinct(names), CentreLeq);
    SameMembersNoRepeats(Distinct(names), Sort(Distinct(names), CentreLeq));
  }

  lemma CentreListIs(added: seq<Group>, removed: seq<Group>)
    requires WellGrouped(added) && WellGrouped(removed)
    ensures var centres := CentreList(added, removed);
            && NoRepeats(centres)
            && (forall g <- added :: g.centre in centres) && (forall g <- removed :: g.centre in centres)
            && (forall c <- centres :: c in CentresOf(SlotsOf(added)) || c in CentresOf(SlotsOf(removed)))
            && Sorted(centres, CentreLeq)
  {
    SortedDistinct(Names(added) + Names(removed));
    NamesAreCentres(added);
    NamesAreCentres(removed);
  }

  // ---------------------------------------------------------------------------
  // The notification
  // ---------------------------------------------------------------------------

  /** Every centre with a change. */
  function CentresIn(diff: AvailabilityDiff): set<string> { CentresOf(diff.added) + CentresOf(diff.removed) }

  function Combined(diff: AvailabilityDiff): seq<Entry> {
    var added, removed := ByCentre(diff.added), ByCentre(diff.removed);
    CombinedEntries(CentreList(added, removed), ToMap(added), ToMap(removed))
  }

  /** What the reader of a notification should be told, and in which order. */
  function Told(diff: AvailabilityDiff): seq<Entry> {
    if diff.removed == [] then Entries(Added, SortSlots(diff.added))
    else if diff.added == [] then Entries(Removed, SortSlots(diff.removed))
    else Combined(diff)
  }

  lemma ByCentreKeepsEverything(slots: seq<AvailableSlot>)
    ensures SlotsOf(ByCentre(slots)) == SortSlots(slots) && WellGrouped(ByCentre(slots))
    ensures CentresOf(SlotsOf(ByCentre(slots))) == CentresOf(slots)
  {
    RunsKeepEverything(SortSlots(slots));
    SlotsAreSorted(slots);
  }

  /** With a place of its own for every centre, a two-sided change is told whole and in order. */
  lemma CombinedIsExact(diff: AvailabilityDiff, mark: Mark)
    requires Canonical(CentresIn(diff))
    ensures SlotsMarked(Combined(diff), mark) ==
            Map(SortSlots(if mark == Added then diff.added else diff.removed), Truncated)
  {
    var added, removed := ByCentre(diff.added), ByCentre(diff.removed);
    var centres := CentreList(added, removed);
    var slots := if mark == Added then diff.added else diff.removed;
    var groups := if mark == Added then added else removed;
    ByCentreKeepsEverything(diff.added);
    ByCentreKeepsEverything(diff.removed);
    CentreListIs(added, removed);
    CombinedEntriesMarked(centres, ToMap(added), ToMap(removed), mark);
    SlotsAreSorted(slots);
    SortedMeansOneRunEach(SortSlots(slots));
    GatherIsOnlyEach(centres, groups);
    NamesAreCentres(groups);
    forall s | s in SortSlots(slots) ensures s.centre in centres {
      assert s.centre in CentresOf(SlotsOf(groups));
      var g :| g in groups && g.centre == s.centre;
    }
    OnlyEachIsAll(centres, SortSlots(slots));
  }

  /** A notification says which slots appeared and which went away, in report order. */
  lemma ToldIsExact(diff: AvailabilityDiff)
    requires diff.added == [] || diff.removed == [] || Canonical(CentresIn(diff))
    ensures SlotsMarked(Told(diff), Added) == Map(SortSlots(diff.added), Truncated)
    ensures SlotsMarked(Told(diff), Removed) == Map(SortSlots(diff.removed), Truncated)
  {
    if diff.removed == [] {
      EntriesMarked(Added, SortSlots(diff.added), Added);
      EntriesMarked(Added, SortSlots(diff.added), Removed);
    } else if diff.added == [] {
      EntriesMarked(Removed, SortSlots(diff.removed), Added);
      EntriesMarked(Removed, SortSlots(diff.removed), Removed);
    } else {
      CombinedIsExact(diff, Added);
      CombinedIsExact(diff, Removed);
    }
  }

  /** The centres of the change, as one name each, even when two share a place in the order. */
  ghost predicate NoCentreSplit(diff: AvailabilityDiff) {
    OneRunEach(ByCentre(diff.added)) && OneRunEach(ByCentre(diff.removed))
  }

  lemma TakeOut<T>(xs: seq<T>, k: nat)
    requires k < |xs|
    ensures multiset(xs) == multiset(xs[..k] + xs[k + 1..]) + multiset{xs[k]}
    ensures multiset(xs[..k] + xs[k + 1..]) == multiset(xs) - multiset{xs[k]}
  {
    assert xs == xs[..k] + [xs[k]] + xs[k + 1..];
  }

  lemma MapTakeOut<S, T>(xs: seq<S>, k: nat, f: S -> T)
    requires k < |xs|
    ensures multiset(Map(xs, f)) == multiset(Map(xs[..k] + xs[k + 1..], f)) + multiset{f(xs[k])}
  {
    TakeOut(Map(xs, f), k);
    assert Map(xs, f)[..k] + Map(xs, f)[k + 1..] == Map(xs[..k] + xs[k + 1..], f);
  }

  lemma FindMember<S>(b: seq<S>, x: S) returns (k: nat)
    requires multiset(b)[x] > 0
    ensures k < |b| && b[k] == x
  {
    assert x in b;
    k :| 0 <= k < |b| && b[k] == x;
  }

  lemma {:induction false} MapSameMembers<S, T>(a: seq<S>, b: seq<S>, f: S -> T)
    requires multiset(a) == multiset(b)
    ensures multiset(Map(a, f)) == multiset(Map(b, f))
    decreases |a|
  {
    if a == [] {
      assert |multiset(b)| == 0;
    } else {
      TakeOut(a, 0);
      var k := FindMember(b, a[0]);
      TakeOut(b, k);
      var a', b' := a[..0] + a[1..], b[..k] + b[k + 1..];
      assert multiset(a') == multiset(b');
      MapSameMembers(a', b', f);
      MapTakeOut(a, 0, f);
      MapTakeOut(b, k, f);
    }
  }

  /** A two-sided change is told without loss exactly when no centre is split by another
      centre with the same place in the order. */
  lemma CombinedIsLosslessIff(diff: AvailabilityDiff)
    ensures NoCentreSplit(diff) <==>
            && multiset(SlotsMarked(Combined(diff), Added)) == multiset(Map(SortSlots(diff.added), Truncated))
            && multiset(SlotsMarked(Combined(diff), Removed)) == multiset(Map(SortSlots(diff.removed), Truncated))
  {
    var added, removed := ByCentre(diff.added), ByCentre(diff.removed);
    ByCentreKeepsEverything(diff.added);
    ByCentreKeepsEverything(diff.removed);
    CentreListIs(added, removed);
    SideIsLosslessIff(diff, Added);
    SideIsLosslessIff(diff, Removed);
  }

  lemma SideIsLosslessIff(diff: AvailabilityDiff, mark: Mark)
    ensures var slots := if mark == Added then diff.added else diff.removed;
            OneRunEach(ByCentre(slots)) <==>
            multiset(SlotsMarked(Combined(diff), mark)) == multiset(Map(SortSlots(slots), Truncated))
  {
    var added, removed := ByCentre(diff.added), ByCentre(diff.removed);
    var centres := CentreList(added, removed);
    var slots := if mark == Added then diff.added else diff.removed;
    var groups := if mark == Added then added else removed;
    ByCentreKeepsEverything(diff.added);
    ByCentreKeepsEverything(diff.removed);
    CentreListIs(added, removed);
    CombinedEntriesMarked(centres, ToMap(added), ToMap(removed), mark);
    GatherKeepsAllIff(centres, groups);
    var kept := Gather(centres, ToMap(groups));
    if OneRunEach(groups) {
      MapSameMembers(kept, SortSlots(slots), Truncated);
    } else {
      assert |multiset(Map(kept, Truncated))| == |kept| < |SortSlots(slots)|;
      assert |multiset(Map(SortSlots(slots), Truncated))| == |SortSlots(slots)|;
    }
  }

  function HeadingFor(diff: AvailabilityDiff): string {
    if diff.removed == [] then ADDED_HEADING else if diff.added == [] then REMOVED_HEADING else BOTH_HEADING
  }

  /** What there is to print of a change, before it is split into messages. */
  function BlocksFor(diff: AvailabilityDiff): seq<seq<string>> {
    if diff.removed == [] then BlocksOf(ByCentre(diff.added), Added)
    else if diff.added == [] then BlocksOf(ByCentre(diff.removed), Removed)
    else
      var added, removed := ByCentre(diff.added), ByCentre(diff.removed);
      CombinedBlocksOf(CentreList(added, removed), ToMap(added), ToMap(removed))
  }

  /** The change is one message if it fits into one, and no message ends before it is full. */
  ghost predicate SplitOnlyWhereFull(diff: AvailabilityDiff, messages: seq<string>) {
    forall heading, blocks | heading == HeadingFor(diff) && blocks == BlocksFor(diff) ::
      && Filled(heading, Flatten(blocks), Gaps(blocks), messages)
      && (Fits(heading, Whole(blocks)) ==> messages == [Message(heading, Whole(blocks))])
  }

  lemma HasGroups(slots: seq<AvailableSlot>)
    requires slots != []
    ensures ByCentre(slots) != []
  {
    ByCentreKeepsEverything(slots);
    assert |SortSlots(slots)| == |slots| by {
      SortMembers(slots, SlotLeq);
      assert |multiset(SortSlots(slots))| == |multiset(slots)|;
    }
  }

  lemma OneSideHasLines(groups: seq<Group>, mark: Mark)
    requires groups != []
    ensures Flatten(BlocksOf(groups, mark)) != []
  {
    var n := |groups| - 1;
    FlattenSnoc(BlocksOf(groups[..n], mark), Block(groups[n], mark));
  }

  lemma BothSidesHaveLines(added: seq<Group>, removed: seq<Group>)
    requires added != [] && WellGrouped(added) && WellGrouped(removed)
    ensures Flatten(CombinedBlocksOf(CentreList(added, removed), ToMap(added), ToMap(removed))) != []
  {
    var centres := CentreList(added, removed);
    CentreListIs(added, removed);
    assert added[0] in added;
    var n := |centres| - 1;
    FlattenSnoc(CombinedBlocksOf(centres[..n], ToMap(added), ToMap(removed)),
                CombinedBlock(centres[n], ToMap(added), ToMap(removed)));
  }

  lemma ChangeHasLines(diff: AvailabilityDiff)
    requires diff.Changed()
    ensures Flatten(BlocksFor(diff)) != []
  {
    if diff.removed == [] {
      HasGroups(diff.added);
      OneSideHasLines(ByCentre(diff.added), Added);
    } else if diff.added == [] {
      HasGroups(diff.removed);
      OneSideHasLines(ByCentre(diff.removed), Removed);
    } else {
      HasGroups(diff.added);
      ByCentreKeepsEverything(diff.added);
      ByCentreKeepsEverything(diff.removed);
      BothSidesHaveLines(ByCentre(diff.added), ByCentre(diff.removed));
    }
  }

  /**
   The notification for one change.  Each message is read on its own, from nothing in
   force; together they tell exactly `Told(diff)`.
   */
  method RenderAvailability(diff: AvailabilityDiff) returns (messages: seq<string>)
    ensures !diff.Changed() ==> messages == []
    ensures diff.Changed() && (forall c <- CentresIn(diff) :: OneLine(c)) ==> ReadMessages(messages) == Some(Told(diff))
    ensures diff.Changed() && (forall c <- CentresIn(diff) :: OneLine(c))
            && (diff.added == [] || diff.removed == [] || Canonical(CentresIn(diff))) ==>
              && ReadMessages(messages).Some?
              && SlotsMarked(ReadMessages(messages).value, Added) == Map(SortSlots(diff.added), Truncated)
              && SlotsMarked(ReadMessages(messages).value, Removed) == Map(SortSlots(diff.removed), Truncated)
    // No message is longer than Telegram allows, unless a centre is named at absurd length.
    ensures (forall c <- CentresIn(diff) :: |c| <= 3816) ==> AllWithinLimit(messages)
    ensures diff.Changed() ==> SplitOnlyWhereFull(diff, messages)
  {
    if !diff.Changed() {
      return [];
    }
    ChangeHasLines(diff);
    if diff.added == [] || diff.removed == [] || forall a <- CentresIn(diff), b <- CentresIn(diff) :: SameRank(a, b) ==> a == b {
      ToldIsExact(diff);
    }
    if diff.removed == [] {
      var blocks := Blocks(diff.added, Added);
      messages := Chunked(ADDED_HEADING, blocks);
      OneSideTold(diff.added, Added);
      OneSideFits(ADDED_HEADING, diff.added, Added);
    } else if diff.added == [] {
      var blocks := Blocks(diff.removed, Removed);
      messages := Chunked(REMOVED_HEADING, blocks);
      OneSideTold(diff.removed, Removed);
      OneSideFits(REMOVED_HEADING, diff.removed, Removed);
    } else {
      var blocks := CombinedBlocks(diff);
      messages := Chunked(BOTH_HEADING, blocks);
      BothSidesTold(diff);
      BothSidesFit(diff);
    }
  }

  lemma OneSideFits(heading: string, slots: seq<AvailableSlot>, mark: Mark)
    requires |heading| <= 25
    ensures (forall c <- CentresOf(slots) :: |c| <= 3816) ==>
              EveryOpeningFits(heading, Flatten(BlocksOf(ByCentre(slots), mark)))
  {
    if forall c <- CentresOf(slots) :: |c| <= 3816 {
      ByCentreKeepsEverything(slots);
      NamesAreCentres(ByCentre(slots));
      BlocksSized(ByCentre(slots), mark, 3825);
      SizedLinesFit(heading, Flatten(BlocksOf(ByCentre(slots), mark)));
    }
  }

  lemma {:induction false} CombinedBlocksSized(centres: seq<string>, added: Sections, removed: Sections, n: nat)
    requires forall c <- centres :: |CentreTitle(c)| <= n
    ensures AllSized(Flatten(CombinedBlocksOf(centres, added, removed)), n)
  {
    if centres != [] {
      var k := |centres| - 1;
      assert centres[k] in centres && forall c <- centres[..k] :: c in centres;
      CombinedBlocksSized(centres[..k], added, removed, n);
      CombinedBlockSized(centres[k], added, removed, n);
      OneMoreSized(CombinedBlocksOf(centres[..k], added, removed), CombinedBlock(centres[k], added, removed), n);
    }
  }

  lemma CombinedBlockSized(centre: string, added: Sections, removed: Sections, n: nat)
    requires |CentreTitle(centre)| <= n
    ensures AllSized(CombinedBlock(centre, added, removed), n)
  {
    assert ADDED_SECTION[0] != CENTRE_PREFIX[0] && ADDED_SECTION[0] != CALENDAR_SIGN[0];
    assert REMOVED_SECTION[0] != CENTRE_PREFIX[0] && REMOVED_SECTION[0] != CALENDAR_SIGN[0];
    if centre in added {
      DateLinesSized(added[centre], Added, n);
    }
    if centre in removed {
      DateLinesSized(removed[centre], Removed, n);
    }
  }

  lemma BothSidesFit(diff: AvailabilityDiff)
    ensures var added, removed := ByCentre(diff.added), ByCentre(diff.removed);
            (forall c <- CentresIn(diff) :: |c| <= 3816) ==>
              EveryOpeningFits(BOTH_HEADING,
                               Flatten(CombinedBlocksOf(CentreList(added, removed), ToMap(added), ToMap(removed))))
  {
    if forall c <- CentresIn(diff) :: |c| <= 3816 {
      var added, removed := ByCentre(diff.added), ByCentre(diff.removed);
      ByCentreKeepsEverything(diff.added);
      ByCentreKeepsEverything(diff.removed);
      CentreListIs(added, removed);
      CombinedBlocksSized(CentreList(added, removed), ToMap(added), ToMap(removed), 3825);
      SizedLinesFit(BOTH_HEADING, Flatten(CombinedBlocksOf(CentreList(added, removed), ToMap(added), ToMap(removed))));
    }
  }

  lemma OneSideTold(slots: seq<AvailableSlot>, mark: Mark)
    ensures var r := ReadLines(Some(mark), Start(Some(mark)), Flatten(BlocksOf(ByCentre(slots), mark)));
            r.Reading? && r.entries == Entries(mark, SortSlots(slots))
    ensures (forall c <- CentresOf(slots) :: OneLine(c)) ==>
              forall l <- Flatten(BlocksOf(ByCentre(slots), mark)) :: OneLine(l)
  {
    ByCentreKeepsEverything(slots);
    BlocksRead(ByCentre(slots), mark);
    if forall c <- CentresOf(slots) :: OneLine(c) {
      NamesAreCentres(ByCentre(slots));
      BlocksAreOneLine(ByCentre(slots), mark);
    }
  }

  lemma BothSidesTold(diff: AvailabilityDiff)
    ensures var added, removed := ByCentre(diff.added), ByCentre(diff.removed);
            var lines := Flatten(CombinedBlocksOf(CentreList(added, removed), ToMap(added), ToMap(removed)));
            && ReadLines(None, Start(None), lines).Reading?
            && ReadLines(None, Start(None), lines).entries == Combined(diff)
            && ((forall c <- CentresIn(diff) :: OneLine(c)) ==> forall l <- lines :: OneLine(l))
  {
    var added, removed := ByCentre(diff.added), ByCentre(diff.removed);
    ByCentreKeepsEverything(diff.added);
    ByCentreKeepsEverything(diff.removed);
    MapNames(added);
    MapNames(removed);
    CombinedBlocksRead(CentreList(added, removed), ToMap(added), ToMap(removed));
    CentreListIs(added, removed);
    if forall c <- CentresIn(diff) :: OneLine(c) {
      CombinedBlocksAreOneLine(CentreList(added, removed), ToMap(added), ToMap(removed));
    }
  }

  // ---------------------------------------------------------------------------
  // What goes wrong without canonical centre ids
  // ---------------------------------------------------------------------------

  lemma {:induction false} NotGathered(centres: seq<string>, m: Sections, x: AvailableSlot)
    requires forall c <- m :: forall s <- m[c] :: s.date != x.date
    ensures Truncated(x) !in Map(Gather(centres, m), Truncated)
  {
    if centres != [] {
      var n := |centres| - 1;
      NotGathered(centres[..n], m, x);
    }
  }

  lemma ToldOfBothSides(diff: AvailabilityDiff)
    requires diff.added != [] && diff.removed != []
    ensures exists centres :: SlotsMarked(Told(diff), Added) == Map(Gather(centres, ToMap(ByCentre(diff.added))), Truncated)
  {
    var added, removed := ByCentre(diff.added), ByCentre(diff.removed);
    CombinedEntriesMarked(CentreList(added, removed), ToMap(added), ToMap(removed), Added);
  }

  /** Two centres that share a place in the order interrupt each other's dates, and the
      combined layout then forgets the first run. */
  lemma InterruptedCentreLosesASlot(diff: AvailabilityDiff, x: AvailableSlot, y: AvailableSlot, z: AvailableSlot)
    requires diff.added == [x, y, z] && diff.removed != []
    requires SameRank(x.centre, y.centre) && x.centre == z.centre != y.centre
    requires Ordinal(x.date) < Ordinal(y.date) < Ordinal(z.date)
    ensures Truncated(x) !in SlotsMarked(Told(diff), Added)
  {
    InterruptedIsFiledOver(x, y, z);
    FiledOverIsNotTold(diff, map[y.centre := [y], z.centre := [z]], x);
  }

  lemma InterruptedIsFiledOver(x: AvailableSlot, y: AvailableSlot, z: AvailableSlot)
    requires SameRank(x.centre, y.centre) && x.centre == z.centre != y.centre
    requires Ordinal(x.date) < Ordinal(y.date) < Ordinal(z.date)
    ensures ToMap(ByCentre([x, y, z])) == map[y.centre := [y], z.centre := [z]]
  {
    InReportOrder(x, y, z);
    SortOfSorted([x, y, z], SlotLeq);
    ThreeRuns(x, y, z);
  }

  lemma FiledOverIsNotTold(diff: AvailabilityDiff, filed: Sections, x: AvailableSlot)
    requires diff.added != [] && diff.removed != [] && ToMap(ByCentre(diff.added)) == filed
    requires forall c <- filed :: forall s <- filed[c] :: s.date != x.date
    ensures Truncated(x) !in SlotsMarked(Told(diff), Added)
  {
    ToldOfBothSides(diff);
    var centres :| SlotsMarked(Told(diff), Added) == Map(Gather(centres, filed), Truncated);
    NotGathered(centres, filed, x);
  }

  /** One of the times that appeared on three days at centres written "12" and "012". */
  function TwelveOn(centre: string, day: int): AvailableSlot
    requires 1 <= day <= 31
  {
    AvailableSlot(centre, Day(2026, 8, day), 36000, None)
  }

  lemma TwelveOnIsOnAMinute(centre: string, day: int)
    requires 1 <= day <= 31
    ensures Truncated(TwelveOn(centre, day)) == TwelveOn(centre, day)
  {
  }

  /** Three slots appear at centres written "12" and "012", and one goes away elsewhere. */
  function TwelveChange(): AvailabilityDiff {
    AvailabilityDiff([TwelveOn("12", 1), TwelveOn("012", 2), TwelveOn("12", 3)], [TwelveOn("7", 1)], [])
  }

  /** "12" and "012" are such centres: nobody is told of the first slot at "12". */
  lemma TwelveLosesASlot(diff: AvailabilityDiff)
    requires diff == TwelveChange()
    ensures TwelveOn("12", 1) in diff.added && TwelveOn("12", 1) !in SlotsMarked(Told(diff), Added)
  {
    TwelveIsTwelve();
    InterruptedCentreLosesASlot(diff, TwelveOn("12", 1), TwelveOn("012", 2), TwelveOn("12", 3));
    TwelveOnIsOnAMinute("12", 1);
  }

  /** The notification of that change, as it is read. */
  method RenderTwelve(diff: AvailabilityDiff) returns (messages: seq<string>)
    requires diff == TwelveChange()
    ensures ReadMessages(messages).Some?
    ensures TwelveOn("12", 1) !in SlotsMarked(ReadMessages(messages).value, Added)
  {
    forall c | c in CentresIn(diff) ensures OneLine(c) {
      assert c == "12" || c == "012" || c == "7";
    }
    messages := RenderAvailability(diff);
    TwelveLosesASlot(diff);
  }

  lemma InReportOrder(x: AvailableSlot, y: AvailableSlot, z: AvailableSlot)
    requires SameRank(x.centre, y.centre) && x.centre == z.centre
    requires Ordinal(x.date) < Ordinal(y.date) < Ordinal(z.date)
    ensures Sorted([x, y, z], SlotLeq)
  {
    CentreOrderIsTotal();
    assert SlotLeq(x, y) && SlotLeq(y, z) && SlotLeq(x, z);
  }

  /** Three runs, of which filing by centre keeps the last two. */
  lemma ThreeRuns(x: AvailableSlot, y: AvailableSlot, z: AvailableSlot)
    requires x.centre == z.centre != y.centre
    ensures var m := ToMap(Runs([x, y, z]));
            m == map[y.centre := [y], z.centre := [z]]
  {
    assert [x, y, z][1..] == [y, z] && [y, z][1..] == [z] && [z][1..] == [];
    assert Runs([z]) == [Group(z.centre, [z])];
    assert Runs([y, z]) == [Group(y.centre, [y])] + Runs([z]);
    var groups := Runs([x, y, z]);
    assert groups == [Group(x.centre, [x]), Group(y.centre, [y]), Group(z.centre, [z])];
    assert groups[..2] == [groups[0], groups[1]] && groups[..2][..1] == [groups[0]] && groups[..1][..0] == [];
    assert ToMap(groups[..1]) == map[x.centre := [x]];
    assert ToMap(groups[..2]) == ToMap(groups[..2][..1])[y.centre := [y]];
  }

  lemma TwelveIsTwelve()
    ensures forall a, b | a == "12" && b == "012" :: SameRank(a, b)
  {
    assert "12"[..1] == "1" && "1"[..0] == "" && "012"[..2] == "01" && "01"[..1] == "0" && "0"[..0] == "";
    assert DecimalValue("1") == 1 && DecimalValue("0") == 0;
    assert DecimalValue("12") == 12;
    assert DecimalValue("01") == 1;
    assert DecimalValue("012") == 12;
  }
}
