/** Merging discovered centres into the configured ones (api/config_init.py, merge). */
module Merging {
  import opened Common
  import opened Calendar
  import Text
  import opened Dicts
  import opened Sorting
  import opened Slots
  import opened Catalogue
  import Http

  // ---------------------------------------------------------------------------
  // Entries
  // ---------------------------------------------------------------------------

  /** A value of an entry of the file. */
  datatype Value = Quoted(text: string) | Whole(number: int) | Flag(on: bool) | Null

  /** One configured centre: fields the program knows and fields it has never heard of. */
  type Entry = map<string, Value>

  function Decimal(n: nat): string {
    if n < 10 then [Digit(n)] else Decimal(n / 10) + [Digit(n % 10)]
  }

  function TextOf(v: Value): string {
    match v
    case Quoted(text) => text
    case Whole(n) => if n < 0 then "-" + Decimal(-n) else Decimal(n)
    case Flag(on) => if on then "True" else "False"
    case Null => "None"
  }

  function RawId(entry: Entry): string { if "id" in entry then TextOf(entry["id"]) else "" }

  function IdOf(entry: Entry): string { Text.Strip(RawId(entry)) }

  function Keyed(entry: Entry): (string, Entry) { (IdOf(entry), entry) }

  /** The configured centres by id: of entries that share one, the last. */
  function ById(existing: seq<Entry>): Dict<string, Entry> { FromPairs(Map(existing, Keyed)) }

  predicate EntryLeq(a: Entry, b: Entry) { CentreLeq(RawId(a), RawId(b)) }

  // ---------------------------------------------------------------------------
  // The merge
  // ---------------------------------------------------------------------------

  function NewEntry(c: DiscoveredCentre): Entry {
    map["id" := Quoted(c.centreId), "name" := Quoted(c.name), "enabled" := Flag(false)]
  }

  /** A configured entry gets the id and name of the discovery; a new or forced one is built anew. */
  function Refreshed(previous: Option<Entry>, c: DiscoveredCentre, force: bool): Entry {
    if previous.None? || force then NewEntry(c)
    else previous.value["id" := Quoted(c.centreId)]["name" := Quoted(c.name)]
  }

  /** What one discovered centre becomes, and how it is reported. */
  datatype Outcome = Outcome(entry: Entry, added: bool, updated: bool)

  function OutcomeOf(previous: Option<Entry>, c: DiscoveredCentre, force: bool): Outcome {
    var entry := Refreshed(previous, c, force);
    Outcome(entry, previous.None?, previous.Some? && entry != previous.value)
  }

  datatype Merge = Merge(entries: seq<Entry>, added: seq<string>, updated: seq<string>, retained: seq<string>) {
    predicate Changed() { added != [] || updated != [] }
  }

  /** Every discovered centre merged, before anything is retained or sorted. */
  function Discovered(byId: Dict<string, Entry>, centres: seq<DiscoveredCentre>, force: bool): Merge {
    if centres == [] then Merge([], [], [], [])
    else
      var c := centres[|centres| - 1];
      var before := Discovered(byId, centres[..|centres| - 1], force);
      var next := OutcomeOf(Find(byId, c.centreId), c, force);
      Merge(before.entries + [next.entry],
            before.added + if next.added then [c.centreId] else [],
            before.updated + if next.updated then [c.centreId] else [],
            [])
  }

  function IdSet(centres: seq<DiscoveredCentre>): set<string> { set c <- centres :: c.centreId }

  /** Configured, named, and not offered by the service. */
  predicate IsRetained(id: string, discovered: set<string>) { id != "" && id !in discovered }

  function Retained(byId: Dict<string, Entry>, discovered: set<string>): Dict<string, Entry> {
    if byId == [] then []
    else (if IsRetained(byId[0].0, discovered) then [byId[0]] else []) + Retained(byId[1..], discovered)
  }

  function KeyList(d: Dict<string, Entry>): seq<string> { Map(d, (p: (string, Entry)) => p.0) }

  function MergeOf(existing: seq<Entry>, centres: seq<DiscoveredCentre>, force: bool): Merge {
    var merged := Discovered(ById(existing), centres, force);
    var kept := Retained(ById(existing), IdSet(centres));
    Merge(Sort(merged.entries + Values(kept), EntryLeq), merged.added, merged.updated, Sort(KeyList(kept), CentreLeq))
  }

  method MergeCatalogue(existing: seq<Entry>, centres: seq<DiscoveredCentre>, force: bool) returns (merge: Merge)
    ensures merge == MergeOf(existing, centres, force)
  {
    var byId := ById(existing);
    var entries: seq<Entry> := [];
    var added: seq<string> := [];
    var updated: seq<string> := [];
    for i := 0 to |centres|
      invariant Merge(entries, added, updated, []) == Discovered(byId, centres[..i], force)
    {
      assert centres[..i + 1][..i] == centres[..i];
      var c := centres[i];
      var previous := Find(byId, c.centreId);
      if previous.None? {
        entries, added := entries + [NewEntry(c)], added + [c.centreId];
      } else {
        var entry := NewEntry(c);
        if !force {
          entry := previous.value["id" := Quoted(c.centreId)]["name" := Quoted(c.name)];
        }
        entries := entries + [entry];
        if entry != previous.value {
          updated := updated + [c.centreId];
        }
      }
    }
    assert centres[..|centres|] == centres;
    var kept := Retained(byId, IdSet(centres));
    return Merge(Sort(entries + Values(kept), EntryLeq), added, updated, Sort(KeyList(kept), CentreLeq));
  }

  // ---------------------------------------------------------------------------
  // What a discovery brings
  // ---------------------------------------------------------------------------

  /** What every discovery promises (`Catalogue.DiscoveryIsInOrder`). */
  ghost predicate WellFormed(centres: seq<DiscoveredCentre>) {
    && DistinctIds(centres) && forall c <- centres :: AllDigits(c.centreId)
  }

  lemma DiscoveryIsWellFormed(departments: seq<Http.Department>)
    ensures WellFormed(DiscoveryOf(departments).centres)
  {
    DiscoveryIsInOrder(departments);
  }

  lemma {:induction false} NothingToStrip(s: string)
    requires forall c <- s :: IsDigit(c)
    ensures Text.Strip(s) == s
  {
    if s != "" {
      assert s[0] in s && s[|s| - 1] in s;
    }
  }

  lemma RefreshedKeepsId(previous: Option<Entry>, c: DiscoveredCentre, force: bool)
    requires AllDigits(c.centreId)
    ensures RawId(Refreshed(previous, c, force)) == IdOf(Refreshed(previous, c, force)) == c.centreId
  {
    NothingToStrip(c.centreId);
  }

  /** One entry for each discovered centre, in order. */
  lemma {:induction false} DiscoveredEntries(byId: Dict<string, Entry>, centres: seq<DiscoveredCentre>, force: bool)
    ensures var m := Discovered(byId, centres, force);
            |m.entries| == |centres| && forall i :: 0 <= i < |centres| ==>
              m.entries[i] == Refreshed(Find(byId, centres[i].centreId), centres[i], force)
  {
    if centres != [] {
      DiscoveredEntries(byId, centres[..|centres| - 1], force);
    }
  }

  /** Added are the discovered centres that were not configured. */
  lemma {:induction false} AddedAre(byId: Dict<string, Entry>, centres: seq<DiscoveredCentre>, force: bool, id: string)
    ensures id in Discovered(byId, centres, force).added <==> id in IdSet(centres) && Find(byId, id).None?
  {
    if centres != [] {
      var n := |centres| - 1;
      AddedAre(byId, centres[..n], force, id);
      assert centres == centres[..n] + [centres[n]];
      assert IdSet(centres) == IdSet(centres[..n]) + {centres[n].centreId};
    }
  }

  /** Updated are those that were configured differently. */
  lemma {:induction false} UpdatedAre(byId: Dict<string, Entry>, centres: seq<DiscoveredCentre>, force: bool, c: DiscoveredCentre)
    requires DistinctIds(centres) && c in centres
    ensures c.centreId in Discovered(byId, centres, force).updated <==>
            Find(byId, c.centreId).Some? && Refreshed(Find(byId, c.centreId), c, force) != Find(byId, c.centreId).value
  {
    var n := |centres| - 1;
    assert centres == centres[..n] + [centres[n]];
    if c == centres[n] {
      UpdatedAreDiscovered(byId, centres[..n], force);
      forall d | d in centres[..n] ensures d.centreId != c.centreId {
        var i :| 0 <= i < n && centres[i] == d;
      }
    } else {
      UpdatedAre(byId, centres[..n], force, c);
    }
  }

  lemma {:induction false} UpdatedAreDiscovered(byId: Dict<string, Entry>, centres: seq<DiscoveredCentre>, force: bool)
    ensures forall id <- Discovered(byId, centres, force).updated :: exists c :: c in centres && c.centreId == id
  {
    if centres != [] {
      var n := |centres| - 1;
      UpdatedAreDiscovered(byId, centres[..n], force);
      assert centres == centres[..n] + [centres[n]];
    }
  }

  lemma {:induction false} RetainedAre(byId: Dict<string, Entry>, discovered: set<string>)
    ensures forall p :: p in Retained(byId, discovered) <==> p in byId && IsRetained(p.0, discovered)
    ensures Unique(byId) ==> Unique(Retained(byId, discovered))
  {
    if byId != [] {
      RetainedAre(byId[1..], discovered);
      assert byId == [byId[0]] + byId[1..];
      if Unique(byId) {
        UniqueTail(byId);
        forall q | q in Retained(byId[1..], discovered) ensures q.0 in Keys(byId[1..]) {
        }
        KeptStaysUnique(byId[0], Retained(byId[1..], discovered));
      }
    }
  }

  lemma ByIdIs(existing: seq<Entry>)
    ensures Unique(ById(existing)) && Keys(ById(existing)) == set e <- existing :: IdOf(e)
    ensures forall p <- ById(existing) :: p.1 in existing && IdOf(p.1) == p.0
  {
    var pairs := Map(existing, Keyed);
    FromPairsIsDict(pairs);
    forall e | e in existing ensures Keyed(e) in pairs {
      var i :| 0 <= i < |existing| && existing[i] == e;
      assert pairs[i] == Keyed(e);
    }
    forall p | p in pairs ensures p.1 in existing && IdOf(p.1) == p.0 {
      var i :| 0 <= i < |pairs| && pairs[i] == p;
    }
    forall e | e in existing ensures IdOf(e) in Keys(ById(existing)) {
      assert Keyed(e) in pairs && Keyed(e).0 == IdOf(e);
    }
  }

  // ---------------------------------------------------------------------------
  // What a merge keeps
  // ---------------------------------------------------------------------------

  ghost function EntryIds(entries: seq<Entry>): set<string> { set e <- entries :: IdOf(e) }

  /** Before sorting: the discovered entries, then the retained ones. */
  function Unsorted(existing: seq<Entry>, centres: seq<DiscoveredCentre>, force: bool): seq<Entry> {
    Discovered(ById(existing), centres, force).entries + Values(Retained(ById(existing), IdSet(centres)))
  }

  lemma DiscoveredAre(byId: Dict<string, Entry>, centres: seq<DiscoveredCentre>, force: bool, e: Entry)
    ensures e in Discovered(byId, centres, force).entries <==>
            exists c <- centres :: e == Refreshed(Find(byId, c.centreId), c, force)
  {
    var first := Discovered(byId, centres, force).entries;
    DiscoveredEntries(byId, centres, force);
    if e in first {
      var i :| 0 <= i < |first| && first[i] == e;
      assert centres[i] in centres;
    }
    if c :| c in centres && e == Refreshed(Find(byId, c.centreId), c, force) {
      var i :| 0 <= i < |centres| && centres[i] == c;
      assert first[i] == e;
    }
  }

  lemma RetainedEntriesAre(byId: Dict<string, Entry>, ids: set<string>, e: Entry)
    ensures e in Values(Retained(byId, ids)) <==> exists p <- byId :: e == p.1 && IsRetained(p.0, ids)
  {
    var kept := Retained(byId, ids);
    RetainedAre(byId, ids);
    if e in Values(kept) {
      var i :| 0 <= i < |kept| && Values(kept)[i] == e;
      assert kept[i] in byId;
    }
    if p :| p in byId && e == p.1 && IsRetained(p.0, ids) {
      var i :| 0 <= i < |kept| && kept[i] == p;
      assert Values(kept)[i] == e;
    }
  }

  lemma UnsortedIs(existing: seq<Entry>, centres: seq<DiscoveredCentre>, force: bool, e: Entry)
    ensures e in Unsorted(existing, centres, force) <==>
            || (exists c <- centres :: e == Refreshed(Find(ById(existing), c.centreId), c, force))
            || (exists p <- ById(existing) :: e == p.1 && IsRetained(p.0, IdSet(centres)))
  {
    DiscoveredAre(ById(existing), centres, force, e);
    RetainedEntriesAre(ById(existing), IdSet(centres), e);
  }

  /**
   The merged file holds exactly: for each discovered centre its refreshed entry, and
   every other configured centre with an id exactly as it was.
   */
  lemma MergedIs(existing: seq<Entry>, centres: seq<DiscoveredCentre>, force: bool, e: Entry)
    ensures e in MergeOf(existing, centres, force).entries <==>
            || (exists c <- centres :: e == Refreshed(Find(ById(existing), c.centreId), c, force))
            || (exists p <- ById(existing) :: e == p.1 && IsRetained(p.0, IdSet(centres)))
  {
    UnsortedIs(existing, centres, force, e);
    SortMembers(Unsorted(existing, centres, force), EntryLeq);
  }

  lemma DiscoveredIsThere(existing: seq<Entry>, centres: seq<DiscoveredCentre>, force: bool, c: DiscoveredCentre)
    requires WellFormed(centres) && c in centres
    ensures c.centreId in EntryIds(MergeOf(existing, centres, force).entries)
  {
    var e := Refreshed(Find(ById(existing), c.centreId), c, force);
    RefreshedKeepsId(Find(ById(existing), c.centreId), c, force);
    MergedIs(existing, centres, force, e);
  }

  lemma RetainedIsThere(existing: seq<Entry>, centres: seq<DiscoveredCentre>, force: bool, id: string)
    requires id in EntryIds(existing) && IsRetained(id, IdSet(centres))
    ensures id in EntryIds(MergeOf(existing, centres, force).entries)
  {
    ByIdIs(existing);
    FindIsMember(ById(existing), id);
    var p := (id, Find(ById(existing), id).value);
    assert p in ById(existing);
    MergedIs(existing, centres, force, p.1);
  }

  lemma MergedComesFrom(existing: seq<Entry>, centres: seq<DiscoveredCentre>, force: bool, e: Entry)
    requires WellFormed(centres) && e in MergeOf(existing, centres, force).entries
    ensures IdOf(e) in IdSet(centres) || (IdOf(e) in EntryIds(existing) && IdOf(e) != "")
  {
    MergedIs(existing, centres, force, e);
    ByIdIs(existing);
    if c :| c in centres && e == Refreshed(Find(ById(existing), c.centreId), c, force) {
      RefreshedKeepsId(Find(ById(existing), c.centreId), c, force);
    }
  }

  /** No configured centre with an id is ever lost, and none appears from nowhere.  One that
      is configured by name alone, without an id, is dropped by every merge. */
  lemma NothingIsLost(existing: seq<Entry>, centres: seq<DiscoveredCentre>, force: bool, id: string)
    requires WellFormed(centres)
    ensures id in EntryIds(MergeOf(existing, centres, force).entries) <==>
            id in IdSet(centres) || (id in EntryIds(existing) && id != "")
  {
    if c :| c in centres && c.centreId == id {
      DiscoveredIsThere(existing, centres, force, c);
    } else if id in EntryIds(existing) && id != "" {
      RetainedIsThere(existing, centres, force, id);
    }
    if e :| e in MergeOf(existing, centres, force).entries && IdOf(e) == id {
      MergedComesFrom(existing, centres, force, e);
    }
  }

  lemma {:induction false} LastPairWins<K, V>(pairs: seq<(K, V)>, i: nat)
    requires i < |pairs| && forall j :: i < j < |pairs| ==> pairs[j].0 != pairs[i].0
    ensures Find(FromPairs(pairs), pairs[i].0) == Some(pairs[i].1)
  {
    var n := |pairs| - 1;
    PutFinds(FromPairs(pairs[..n]), pairs[n].0, pairs[n].1, pairs[i].0);
    if i < n {
      LastPairWins(pairs[..n], i);
    }
  }

  /** Of entries that share an id, the last is the one that is kept. */
  lemma LastEntryWins(existing: seq<Entry>, i: nat)
    requires i < |existing| && forall j :: i < j < |existing| ==> IdOf(existing[j]) != IdOf(existing[i])
    ensures Find(ById(existing), IdOf(existing[i])) == Some(existing[i])
  {
    LastPairWins(Map(existing, Keyed), i);
  }

  /** Where an id stands for the last time in the configuration. */
  ghost predicate LastWithItsId(existing: seq<Entry>, last: nat) {
    last < |existing| && forall j :: last < j < |existing| ==> IdOf(existing[j]) != IdOf(existing[last])
  }

  /** What the merged file holds under an id that was not discovered. */
  lemma UndiscoveredIs(existing: seq<Entry>, centres: seq<DiscoveredCentre>, force: bool, last: nat, e: Entry)
    requires WellFormed(centres) && LastWithItsId(existing, last)
    requires IdOf(existing[last]) !in IdSet(centres) && IdOf(e) == IdOf(existing[last])
    ensures e in MergeOf(existing, centres, force).entries <==> IdOf(e) != "" && e == existing[last]
  {
    var byId := ById(existing);
    LastEntryWins(existing, last);
    ByIdIs(existing);
    FindIsMember(byId, IdOf(e));
    MergedIs(existing, centres, force, e);
    forall c | c in centres ensures e != Refreshed(Find(byId, c.centreId), c, force) {
      RefreshedKeepsId(Find(byId, c.centreId), c, force);
    }
  }

  /** An entry the service does not offer survives a merge exactly when it has an id and is
      the same as the last entry with that id. */
  lemma EntrySurvivesIff(existing: seq<Entry>, centres: seq<DiscoveredCentre>, force: bool, i: nat, last: nat)
    requires WellFormed(centres) && i < |existing| && LastWithItsId(existing, last)
    requires IdOf(existing[i]) == IdOf(existing[last]) && IdOf(existing[i]) !in IdSet(centres)
    ensures existing[i] in MergeOf(existing, centres, force).entries <==>
            IdOf(existing[i]) != "" && existing[i] == existing[last]
  {
    UndiscoveredIs(existing, centres, force, last, existing[i]);
  }

  /** Under a discovered id, the file holds what the last entry with that id becomes. */
  lemma DiscoveredEntryIs(
    existing: seq<Entry>, centres: seq<DiscoveredCentre>, force: bool, c: DiscoveredCentre, last: nat, e: Entry)
    requires WellFormed(centres) && c in centres && LastWithItsId(existing, last)
    requires IdOf(existing[last]) == c.centreId == IdOf(e)
    ensures e in MergeOf(existing, centres, force).entries <==> e == Refreshed(Some(existing[last]), c, force)
  {
    LastEntryWins(existing, last);
    ByIdIs(existing);
    MergedIs(existing, centres, force, e);
    if d :| d in centres && e == Refreshed(Find(ById(existing), d.centreId), d, force) {
      RefreshedKeepsId(Find(ById(existing), d.centreId), d, force);
    }
  }

  /** Two entries under one id and one without an id, and a service that offers nothing: only
      the second of the two is left. */
  lemma TwoOfThreeAreLost(force: bool)
    ensures var first, second, nameless :=
              map["id" := Quoted("1"), "name" := Quoted("a")], map["id" := Quoted("1"), "name" := Quoted("b")],
              map["name" := Quoted("c")];
            var entries := MergeOf([first, second, nameless], [], force).entries;
            second in entries && first !in entries && nameless !in entries
  {
    var first, second, nameless: Entry :=
      map["id" := Quoted("1"), "name" := Quoted("a")], map["id" := Quoted("1"), "name" := Quoted("b")],
      map["name" := Quoted("c")];
    NothingToStrip("1");
    assert IdOf(first) == IdOf(second) == "1" && IdOf(nameless) == "";
    assert first["name"] != second["name"];
    var existing := [first, second, nameless];
    EntrySurvivesIff(existing, [], force, 0, 1);
    EntrySurvivesIff(existing, [], force, 1, 1);
    EntrySurvivesIff(existing, [], force, 2, 2);
  }

  /** Without `force`, a configured centre keeps every field but its id and name. */
  lemma FieldsSurvive(existing: seq<Entry>, centres: seq<DiscoveredCentre>, c: DiscoveredCentre, field: string)
    requires c in centres && Find(ById(existing), c.centreId).Some? && field != "id" && field != "name"
    ensures var before, after := Find(ById(existing), c.centreId).value, Refreshed(Find(ById(existing), c.centreId), c, false);
            && after in MergeOf(existing, centres, false).entries && before in existing
            && (field in after <==> field in before) && (field in before ==> after[field] == before[field])
  {
    var byId := ById(existing);
    ByIdIs(existing);
    FindIsMember(byId, c.centreId);
    MergedIs(existing, centres, false, Refreshed(Find(byId, c.centreId), c, false));
  }

  /** What was not discovered is not touched, forced or not. */
  lemma RetainedIsUntouched(existing: seq<Entry>, centres: seq<DiscoveredCentre>, force: bool, id: string)
    requires Find(ById(existing), id).Some? && IsRetained(id, IdSet(centres))
    ensures Find(ById(existing), id).value in MergeOf(existing, centres, force).entries
    ensures id in MergeOf(existing, centres, force).retained
  {
    FindIsMember(ById(existing), id);
    var p := (id, Find(ById(existing), id).value);
    MergedIs(existing, centres, force, p.1);
    RetainedAre(ById(existing), IdSet(centres));
    var kept := Retained(ById(existing), IdSet(centres));
    var i :| 0 <= i < |kept| && kept[i] == p;
    assert KeyList(kept)[i] == id;
    SortMembers(KeyList(kept), CentreLeq);
  }

  lemma RetainedIsReported(existing: seq<Entry>, centres: seq<DiscoveredCentre>, force: bool, id: string)
    requires id in MergeOf(existing, centres, force).retained
    ensures id in EntryIds(existing) && IsRetained(id, IdSet(centres))
  {
    var kept := Retained(ById(existing), IdSet(centres));
    SortMembers(KeyList(kept), CentreLeq);
    RetainedAre(ById(existing), IdSet(centres));
    ByIdIs(existing);
    var i :| 0 <= i < |kept| && KeyList(kept)[i] == id;
    assert kept[i] in kept;
  }

  /** Every id of the file is discovered or retained and never both; of the discovered ones,
      `added` are exactly those that were not configured. */
  lemma ReportIsAPartition(existing: seq<Entry>, centres: seq<DiscoveredCentre>, force: bool, id: string)
    requires WellFormed(centres)
    ensures var merge := MergeOf(existing, centres, force);
            && (id in EntryIds(merge.entries) <==> id in IdSet(centres) || id in merge.retained)
            && !(id in IdSet(centres) && id in merge.retained)
            && (id in merge.added <==> id in IdSet(centres) && id !in EntryIds(existing))
  {
    NothingIsLost(existing, centres, force, id);
    AddedAre(ById(existing), centres, force, id);
    ByIdIs(existing);
    FindIsMember(ById(existing), id);
    if id in MergeOf(existing, centres, force).retained {
      RetainedIsReported(existing, centres, force, id);
    }
    if id in EntryIds(existing) && IsRetained(id, IdSet(centres)) {
      RetainedIsUntouched(existing, centres, force, id);
    }
  }

  // ---------------------------------------------------------------------------
  // Merging twice
  // ---------------------------------------------------------------------------

  ghost predicate DistinctEntryIds(entries: seq<Entry>) {
    forall i, j :: 0 <= i < j < |entries| ==> IdOf(entries[i]) != IdOf(entries[j])
  }

  lemma EntryOrderIsTotal()
    ensures TotalPreorder(EntryLeq)
  {
    CentreOrderIsTotal();
  }

  lemma UnsortedHasDistinctIds(existing: seq<Entry>, centres: seq<DiscoveredCentre>, force: bool)
    requires WellFormed(centres)
    ensures DistinctEntryIds(Unsorted(existing, centres, force))
  {
    var byId := ById(existing);
    var first, kept := Discovered(byId, centres, force).entries, Retained(byId, IdSet(centres));
    DiscoveredEntries(byId, centres, force);
    ByIdIs(existing);
    RetainedAre(byId, IdSet(centres));
    forall i | 0 <= i < |centres| ensures IdOf(first[i]) == centres[i].centreId {
      assert centres[i] in centres;
      RefreshedKeepsId(Find(byId, centres[i].centreId), centres[i], force);
    }
    forall j | 0 <= j < |kept| ensures IdOf(Values(kept)[j]) == kept[j].0 && kept[j].0 !in IdSet(centres) {
      assert kept[j] in kept;
    }
    forall i, j | 0 <= i < |centres| && 0 <= j < |kept| ensures IdOf(first[i]) != IdOf(Values(kept)[j]) {
      assert centres[i].centreId in IdSet(centres);
    }
  }

  lemma SortingKeepsIdsDistinct(entries: seq<Entry>)
    requires DistinctEntryIds(entries)
    ensures DistinctEntryIds(Sort(entries, EntryLeq))
  {
    assert NoRepeats(entries);
    SameMembersNoRepeats(entries, Sort(entries, EntryLeq));
    SortMembers(entries, EntryLeq);
    var sorted := Sort(entries, EntryLeq);
    forall i, j | 0 <= i < j < |sorted| ensures IdOf(sorted[i]) != IdOf(sorted[j]) {
      assert sorted[i] in entries && sorted[j] in entries && sorted[i] != sorted[j];
    }
  }

  /** The file lists every id once, in order: numbers by value, then the rest by spelling. */
  lemma MergedIsInOrder(existing: seq<Entry>, centres: seq<DiscoveredCentre>, force: bool)
    requires WellFormed(centres)
    ensures Sorted(MergeOf(existing, centres, force).entries, EntryLeq)
    ensures DistinctEntryIds(MergeOf(existing, centres, force).entries)
  {
    EntryOrderIsTotal();
    SortSorts(Unsorted(existing, centres, force), EntryLeq);
    UnsortedHasDistinctIds(existing, centres, force);
    SortingKeepsIdsDistinct(Unsorted(existing, centres, force));
  }

  /** A file with distinct ids is its own dictionary. */
  lemma DistinctIsById(entries: seq<Entry>)
    requires DistinctEntryIds(entries)
    ensures ById(entries) == Map(entries, Keyed)
  {
    assert Unique(Map(entries, Keyed));
    FromUniquePairs(Map(entries, Keyed));
  }

  lemma FoundByItsId(entries: seq<Entry>, e: Entry)
    requires DistinctEntryIds(entries) && e in entries
    ensures Find(ById(entries), IdOf(e)) == Some(e)
  {
    DistinctIsById(entries);
    var i :| 0 <= i < |entries| && entries[i] == e;
    assert Map(entries, Keyed)[i] == (IdOf(e), e);
    FindIsMember(Map(entries, Keyed), IdOf(e));
  }

  /** The second time, a discovered centre is found as the first merge left it, and stays so. */
  lemma RefreshedAgain(previous: Option<Entry>, c: DiscoveredCentre, force: bool)
    ensures var e := Refreshed(previous, c, force);
            OutcomeOf(Some(e), c, force) == Outcome(e, false, false)
  {
  }

  lemma {:induction false} DiscoveredAgain(
    before: Dict<string, Entry>, after: Dict<string, Entry>, centres: seq<DiscoveredCentre>, force: bool)
    requires forall c <- centres :: Find(after, c.centreId) == Some(Refreshed(Find(before, c.centreId), c, force))
    ensures Discovered(after, centres, force) == Merge(Discovered(before, centres, force).entries, [], [], [])
  {
    if centres != [] {
      var n := |centres| - 1;
      var c := centres[n];
      assert c in centres && forall d <- centres[..n] :: d in centres;
      DiscoveredAgain(before, after, centres[..n], force);
      RefreshedAgain(Find(before, c.centreId), c, force);
    }
  }

  // The retained entries of a sorted file are the retained entries, sorted.

  predicate Keeps(e: Entry, discovered: set<string>) { IsRetained(IdOf(e), discovered) }

  function KeptOf(entries: seq<Entry>, discovered: set<string>): seq<Entry> {
    if entries == [] then []
    else (if Keeps(entries[0], discovered) then [entries[0]] else []) + KeptOf(entries[1..], discovered)
  }

  lemma {:induction false} RetainedIsKept(entries: seq<Entry>, discovered: set<string>)
    ensures Values(Retained(Map(entries, Keyed), discovered)) == KeptOf(entries, discovered)
  {
    if entries != [] {
      var rest := Retained(Map(entries[1..], Keyed), discovered);
      assert Map(entries, Keyed)[1..] == Map(entries[1..], Keyed);
      RetainedIsKept(entries[1..], discovered);
      if Keeps(entries[0], discovered) {
        ValuesCons(Keyed(entries[0]), rest);
      } else {
        assert [] + rest == rest && [] + KeptOf(entries[1..], discovered) == KeptOf(entries[1..], discovered);
      }
    }
  }

  lemma {:induction false} InsertingAnother(e: Entry, entries: seq<Entry>, discovered: set<string>)
    requires !Keeps(e, discovered)
    ensures KeptOf(Insert(e, entries, EntryLeq), discovered) == KeptOf(entries, discovered)
  {
    if entries == [] || EntryLeq(e, entries[0]) {
      assert ([e] + entries)[1..] == entries;
    } else {
      InsertingAnother(e, entries[1..], discovered);
      assert ([entries[0]] + Insert(e, entries[1..], EntryLeq))[1..] == Insert(e, entries[1..], EntryLeq);
    }
  }

  lemma {:induction false} KeepsEverything(entries: seq<Entry>, discovered: set<string>)
    requires forall e <- entries :: Keeps(e, discovered)
    ensures KeptOf(entries, discovered) == entries
  {
    if entries != [] {
      assert entries[0] in entries && entries == [entries[0]] + entries[1..];
      KeepsEverything(entries[1..], discovered);
    }
  }

  lemma {:induction false} KeptOfSorted(first: seq<Entry>, kept: seq<Entry>, discovered: set<string>)
    requires forall e <- first :: !Keeps(e, discovered)
    requires forall e <- kept :: Keeps(e, discovered)
    ensures KeptOf(Sort(first + kept, EntryLeq), discovered) == Sort(kept, EntryLeq)
  {
    if first == [] {
      assert first + kept == kept;
      SortMembers(kept, EntryLeq);
      KeepsEverything(Sort(kept, EntryLeq), discovered);
    } else {
      assert (first + kept)[1..] == first[1..] + kept && first[0] in first;
      KeptOfSorted(first[1..], kept, discovered);
      InsertingAnother(first[0], Sort(first[1..] + kept, EntryLeq), discovered);
    }
  }

  lemma PartsAreKeptOrNot(existing: seq<Entry>, centres: seq<DiscoveredCentre>, force: bool)
    requires WellFormed(centres)
    ensures forall e <- Discovered(ById(existing), centres, force).entries :: !Keeps(e, IdSet(centres))
    ensures forall e <- Values(Retained(ById(existing), IdSet(centres))) :: Keeps(e, IdSet(centres))
  {
    var byId := ById(existing);
    var first, kept := Discovered(byId, centres, force).entries, Retained(byId, IdSet(centres));
    DiscoveredEntries(byId, centres, force);
    forall e | e in first ensures !Keeps(e, IdSet(centres)) {
      var i :| 0 <= i < |first| && first[i] == e;
      assert centres[i] in centres;
      RefreshedKeepsId(Find(byId, centres[i].centreId), centres[i], force);
    }
    ByIdIs(existing);
    RetainedAre(byId, IdSet(centres));
    forall e | e in Values(kept) ensures Keeps(e, IdSet(centres)) {
      var i :| 0 <= i < |kept| && Values(kept)[i] == e;
      assert kept[i] in kept;
    }
  }

  lemma DiscoveredIsFound(existing: seq<Entry>, centres: seq<DiscoveredCentre>, force: bool, c: DiscoveredCentre)
    requires WellFormed(centres) && c in centres
    ensures Find(ById(MergeOf(existing, centres, force).entries), c.centreId)
            == Some(Refreshed(Find(ById(existing), c.centreId), c, force))
  {
    var e := Refreshed(Find(ById(existing), c.centreId), c, force);
    MergedIs(existing, centres, force, e);
    MergedIsInOrder(existing, centres, force);
    FoundByItsId(MergeOf(existing, centres, force).entries, e);
    RefreshedKeepsId(Find(ById(existing), c.centreId), c, force);
  }

  lemma RetainedAgain(existing: seq<Entry>, centres: seq<DiscoveredCentre>, force: bool)
    requires WellFormed(centres)
    ensures Values(Retained(ById(MergeOf(existing, centres, force).entries), IdSet(centres)))
            == Sort(Values(Retained(ById(existing), IdSet(centres))), EntryLeq)
  {
    var merged := MergeOf(existing, centres, force).entries;
    MergedIsInOrder(existing, centres, force);
    DistinctIsById(merged);
    RetainedIsKept(merged, IdSet(centres));
    PartsAreKeptOrNot(existing, centres, force);
    KeptOfSorted(Discovered(ById(existing), centres, force).entries, Values(Retained(ById(existing), IdSet(centres))),
                 IdSet(centres));
  }

  /** Merging a merged file with the same discovery changes nothing and reports nothing,
      in both modes, whatever was configured to begin with. */
  lemma MergingTwiceIsMergingOnce(existing: seq<Entry>, centres: seq<DiscoveredCentre>, force: bool)
    requires WellFormed(centres)
    ensures var merged := MergeOf(existing, centres, force).entries;
            MergeOf(merged, centres, force).entries == merged && !MergeOf(merged, centres, force).Changed()
  {
    var merged := MergeOf(existing, centres, force).entries;
    forall c | c in centres
      ensures Find(ById(merged), c.centreId) == Some(Refreshed(Find(ById(existing), c.centreId), c, force))
    {
      DiscoveredIsFound(existing, centres, force, c);
    }
    DiscoveredAgain(ById(existing), ById(merged), centres, force);
    RetainedAgain(existing, centres, force);
    EntryOrderIsTotal();
    SortTailFirst(Discovered(ById(existing), centres, force).entries,
                  Values(Retained(ById(existing), IdSet(centres))), EntryLeq);
  }
}
