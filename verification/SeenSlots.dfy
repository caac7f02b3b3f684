/**
 The cooldown of the browser monitor: when a slot was last notified (monitor/state.py),
 and when it may be notified again (monitor/monitor.py, report).
 */
module SeenSlots {
  import opened Common
  import opened Calendar

  /** A slot as the browser shows it. */
  datatype SeenSlot = SeenSlot(serviceCentre: string, date: Option<Date>, time: string) {
    /** What counts as the same slot. */
    function Key(): string {
      serviceCentre + "|" + (if date.Some? then IsoDate(date.value) else "unknown-date") + "|" + time
    }
  }

  /** Seconds; a key marked longer ago than thirty days is dropped. */
  const RETENTION := 2592000.0

  /** Slot key to the time of its last notification. */
  type Seen = map<string, real>

  predicate IsNew(seen: Seen, cooldown: real, key: string, now: real) {
    key in seen ==> now - seen[key] >= cooldown
  }

  ghost function KeysIn(slots: seq<SeenSlot>): set<string> { set s <- slots :: s.Key() }

  /** The slots to report: each new key once, in the order given. */
  ghost function Selected(seen: Seen, cooldown: real, slots: seq<SeenSlot>, now: real): seq<SeenSlot> {
    if slots == [] then []
    else
      var n := |slots| - 1;
      Selected(seen, cooldown, slots[..n], now)
      + if slots[n].Key() !in KeysIn(slots[..n]) && IsNew(seen, cooldown, slots[n].Key(), now) then [slots[n]] else []
  }

  ghost function Marked(seen: Seen, slots: seq<SeenSlot>, now: real): Seen {
    map k | k in seen.Keys + KeysIn(slots) :: if k in KeysIn(slots) then now else seen[k]
  }

  ghost function Pruned(seen: Seen, now: real): Seen {
    map k | k in seen && now - seen[k] <= RETENTION :: seen[k]
  }

  ghost predicate DistinctKeys(slots: seq<SeenSlot>) {
    forall i, j :: 0 <= i < j < |slots| ==> slots[i].Key() != slots[j].Key()
  }

  /** A notification lists no key twice, and exactly the keys that are new. */
  lemma {:induction false} SelectedIs(seen: Seen, cooldown: real, slots: seq<SeenSlot>, now: real)
    ensures DistinctKeys(Selected(seen, cooldown, slots, now))
    ensures forall s <- Selected(seen, cooldown, slots, now) :: s in slots
    ensures KeysIn(Selected(seen, cooldown, slots, now))
            == set k <- KeysIn(slots) | IsNew(seen, cooldown, k, now)
  {
    if slots != [] {
      var n := |slots| - 1;
      SelectedIs(seen, cooldown, slots[..n], now);
      assert slots == slots[..n] + [slots[n]];
      OneMoreKey(Selected(seen, cooldown, slots[..n], now), slots[..n], slots[n], seen, cooldown, now);
    }
  }

  lemma OneMoreKey(
    before: seq<SeenSlot>, slots: seq<SeenSlot>, last: SeenSlot, seen: Seen, cooldown: real, now: real)
    requires KeysIn(before) == (set k <- KeysIn(slots) | IsNew(seen, cooldown, k, now))
    ensures KeysIn(slots + [last]) == KeysIn(slots) + {last.Key()}
    ensures KeysIn(before + [last]) == KeysIn(before) + {last.Key()}
    ensures last.Key() !in KeysIn(slots) ==> forall s <- before :: s.Key() != last.Key()
    ensures (set k <- KeysIn(slots + [last]) | IsNew(seen, cooldown, k, now))
            == KeysIn(before) + if IsNew(seen, cooldown, last.Key(), now) then {last.Key()} else {}
  {
  }

  // ---------------------------------------------------------------------------
  // Never too soon
  // ---------------------------------------------------------------------------

  /** One key reported in one notification. */
  datatype Notice = Notice(key: string, at: real)

  function NoticesOf(slots: seq<SeenSlot>, now: real): seq<Notice> {
    Map(slots, (s: SeenSlot) => Notice(s.Key(), now))
  }

  /** The shortest time between two notifications of one key. */
  function Distance(cooldown: real): real { if cooldown < RETENTION then cooldown else RETENTION }

  /** Of any two notices of one key, the later comes at least `distance` after the earlier. */
  ghost predicate Apart(sent: seq<Notice>, distance: real) {
    forall i, j :: 0 <= i < j < |sent| && sent[i].key == sent[j].key ==> sent[j].at - sent[i].at >= distance
  }

  /** Every notice that is not long past is still known. */
  ghost predicate Knows(seen: Seen, sent: seq<Notice>, clock: real) {
    forall n <- sent :: n.at <= clock && ((n.key in seen && seen[n.key] >= n.at) || clock - n.at > RETENTION)
  }

  /** Pruning forgets a key only when its notification is long past. */
  lemma PrunedKnows(seen: Seen, sent: seq<Notice>, clock: real, now: real)
    requires Knows(seen, sent, clock) && clock <= now
    ensures Knows(Pruned(seen, now), sent, now)
  {
  }

  /** Notifying what is selected keeps every two notices apart, those of this very moment included. */
  lemma SelectionKeepsApart(
    seen: Seen, cooldown: real, sent: seq<Notice>, clock: real, slots: seq<SeenSlot>, now: real)
    requires Knows(seen, sent, clock) && clock <= now && Apart(sent, Distance(cooldown))
    ensures Apart(sent + NoticesOf(Selected(seen, cooldown, slots, now), now), Distance(cooldown))
  {
    var chosen := Selected(seen, cooldown, slots, now);
    var all := sent + NoticesOf(chosen, now);
    SelectedIs(seen, cooldown, slots, now);
    forall i, j | 0 <= i < j < |all| && all[i].key == all[j].key ensures all[j].at - all[i].at >= Distance(cooldown) {
      if |sent| <= j {
        assert all[j] in NoticesOf(chosen, now) && all[j].key in KeysIn(chosen);
        if i < |sent| {
          assert all[i] in sent;
        }
      }
    }
  }

  /** So a report leaves a store that is in order. */
  lemma ReportIsInOrder(seen: Seen, cooldown: real, sent: seq<Notice>, clock: real, slots: seq<SeenSlot>, now: real)
    requires Knows(seen, sent, clock) && clock <= now && Apart(sent, Distance(cooldown))
    ensures var chosen := Selected(seen, cooldown, slots, now);
            && Apart(sent + NoticesOf(chosen, now), Distance(cooldown))
            && Knows(Pruned(Marked(seen, chosen, now), now), sent + NoticesOf(chosen, now), now)
  {
    var chosen := Selected(seen, cooldown, slots, now);
    SelectionKeepsApart(seen, cooldown, sent, clock, slots, now);
    PrunedKnows(Marked(seen, chosen, now), sent + NoticesOf(chosen, now), now, now);
  }

  // ---------------------------------------------------------------------------
  // Any order of events
  // ---------------------------------------------------------------------------

  /** What can happen: a report whose file is saved or not, a pruning, a new process. */
  datatype Turn = Reported(slots: seq<SeenSlot>, at: real, saves: bool) | Pruning(at: real) | Restarted(at: real)

  /** What is remembered, what a new process would load, and every notice so far. */
  datatype History = History(seen: Seen, file: Seen, sent: seq<Notice>, clock: real)

  /** One report: notify what is new, mark it, prune, save.  With nothing new it does nothing. */
  ghost function AfterReport(h: History, cooldown: real, slots: seq<SeenSlot>, at: real, saves: bool): History {
    var chosen := Selected(h.seen, cooldown, slots, at);
    if chosen == [] then h.(clock := at)
    else
      var seen := Pruned(Marked(h.seen, chosen, at), at);
      History(seen, if saves then seen else h.file, h.sent + NoticesOf(chosen, at), at)
  }

  ghost function Next(h: History, cooldown: real, turn: Turn): History {
    match turn
    case Reported(slots, at, saves) => AfterReport(h, cooldown, slots, at, saves)
    case Pruning(at) => h.(seen := Pruned(h.seen, at), clock := at)
    case Restarted(at) => h.(seen := h.file, clock := at)
  }

  ghost function AfterTurns(file: Seen, start: real, cooldown: real, turns: seq<Turn>): History {
    if turns == [] then History(file, file, [], start)
    else Next(AfterTurns(file, start, cooldown, turns[..|turns| - 1]), cooldown, turns[|turns| - 1])
  }

  ghost predicate InTime(start: real, turns: seq<Turn>) {
    && (turns != [] ==> start <= turns[0].at)
    && forall i :: 0 <= i < |turns| - 1 ==> turns[i].at <= turns[i + 1].at
  }

  /** Every report was saved, so that a new process knows what the old one did. */
  ghost predicate EveryMarkKept(turns: seq<Turn>) { forall t <- turns :: t.Reported? ==> t.saves }

  /** Nothing of the history is forgotten too early, in memory or in the file. */
  ghost predicate Sound(h: History, cooldown: real) {
    && Apart(h.sent, Distance(cooldown)) && Knows(h.seen, h.sent, h.clock) && Knows(h.file, h.sent, h.clock)
  }

  lemma ReportIsSound(h: History, cooldown: real, slots: seq<SeenSlot>, at: real)
    requires Sound(h, cooldown) && h.clock <= at
    ensures Sound(AfterReport(h, cooldown, slots, at, true), cooldown)
  {
    ReportIsInOrder(h.seen, cooldown, h.sent, h.clock, slots, at);
  }

  lemma NextIsSound(h: History, cooldown: real, turn: Turn)
    requires Sound(h, cooldown) && h.clock <= turn.at && (turn.Reported? ==> turn.saves)
    ensures Sound(Next(h, cooldown, turn), cooldown) && Next(h, cooldown, turn).clock == turn.at
  {
    match turn
    case Reported(slots, at, _) => ReportIsSound(h, cooldown, slots, at);
    case Pruning(at) => PrunedKnows(h.seen, h.sent, h.clock, at);
    case Restarted(_) =>
  }

  /** Whatever is stored to begin with, and however reports, prunings and new processes follow
      each other: while every mark is kept, two notices of a key are never closer than the
      smaller of the cooldown and thirty days. */
  lemma {:induction false} NotificationsStayApart(file: Seen, start: real, cooldown: real, turns: seq<Turn>)
    requires InTime(start, turns) && EveryMarkKept(turns)
    ensures var h := AfterTurns(file, start, cooldown, turns);
            Sound(h, cooldown) && h.clock == if turns == [] then start else turns[|turns| - 1].at
  {
    if turns != [] {
      var n := |turns| - 1;
      NotificationsStayApart(file, start, cooldown, turns[..n]);
      assert turns[n] in turns;
      NextIsSound(AfterTurns(file, start, cooldown, turns[..n]), cooldown, turns[n]);
    }
  }

  // ---------------------------------------------------------------------------
  // When the cooldown itself is kept
  // ---------------------------------------------------------------------------

  ghost predicate AlwaysKeeps(cooldown: real) {
    forall file, start, turns ::
      InTime(start, turns) && EveryMarkKept(turns) ==> Apart(AfterTurns(file, start, cooldown, turns).sent, cooldown)
  }

  /** A first slot is reported, then another one while the first is forgotten, then the first again. */
  function ForgettingTurns(first: SeenSlot, other: SeenSlot, gap: real): seq<Turn> {
    [Reported([first], 0.0, true), Reported([other], gap, true), Reported([first], gap, true)]
  }

  lemma SelectedOne(seen: Seen, cooldown: real, slot: SeenSlot, now: real)
    ensures Selected(seen, cooldown, [slot], now) == if IsNew(seen, cooldown, slot.Key(), now) then [slot] else []
  {
    assert [slot][..0] == [] && Selected(seen, cooldown, [], now) == [] && KeysIn([]) == {};
  }

  lemma ReportedOne(h: History, cooldown: real, slot: SeenSlot, at: real)
    requires IsNew(h.seen, cooldown, slot.Key(), at)
    ensures AfterReport(h, cooldown, [slot], at, true).sent == h.sent + [Notice(slot.Key(), at)]
    ensures AfterReport(h, cooldown, [slot], at, true).seen == Pruned(h.seen[slot.Key() := at], at)
  {
    SelectedOne(h.seen, cooldown, slot, at);
    assert NoticesOf([slot], at) == [Notice(slot.Key(), at)];
    assert KeysIn([slot]) == {slot.Key()} by {
      assert slot in [slot];
    }
    assert Marked(h.seen, [slot], at) == h.seen[slot.Key() := at];
  }

  /** With a cooldown longer than the gap, but a gap beyond thirty days, the first slot is
      notified twice before its cooldown is over. */
  lemma ForgottenTooEarly(first: SeenSlot, other: SeenSlot, cooldown: real, gap: real)
    requires first.Key() != other.Key() && RETENTION < gap < cooldown
    ensures InTime(0.0, ForgettingTurns(first, other, gap)) && EveryMarkKept(ForgettingTurns(first, other, gap))
    ensures AfterTurns(map[], 0.0, cooldown, ForgettingTurns(first, other, gap)).sent
            == [Notice(first.Key(), 0.0), Notice(other.Key(), gap), Notice(first.Key(), gap)]
  {
    ThreeTurns(map[], 0.0, cooldown, Reported([first], 0.0, true), Reported([other], gap, true), Reported([first], gap, true));
    ThreeReports(History(map[], map[], [], 0.0), first, other, cooldown, gap);
  }

  lemma ThreeReports(h0: History, first: SeenSlot, other: SeenSlot, cooldown: real, gap: real)
    requires h0.seen == map[] && h0.sent == []
    requires first.Key() != other.Key() && RETENTION < gap < cooldown
    ensures var h1 := AfterReport(h0, cooldown, [first], 0.0, true);
            var h2 := AfterReport(h1, cooldown, [other], gap, true);
            AfterReport(h2, cooldown, [first], gap, true).sent
            == [Notice(first.Key(), 0.0), Notice(other.Key(), gap), Notice(first.Key(), gap)]
  {
    var h1 := AfterReport(h0, cooldown, [first], 0.0, true);
    ReportedOne(h0, cooldown, first, 0.0);
    assert forall key <- h1.seen :: key == first.Key() && h1.seen[key] == 0.0;
    ReportedOne(h1, cooldown, other, gap);
    OldMarkIsForgotten(h1.seen, first.Key(), other.Key(), gap);
    ReportedOne(AfterReport(h1, cooldown, [other], gap, true), cooldown, first, gap);
  }

  lemma OldMarkIsForgotten(seen: Seen, earlier: string, later: string, gap: real)
    requires earlier != later && RETENTION < gap && (earlier in seen ==> seen[earlier] == 0.0)
    ensures earlier !in Pruned(seen[later := gap], gap)
  {
  }

  lemma OneTurnMore(file: Seen, start: real, cooldown: real, turns: seq<Turn>, turn: Turn)
    ensures AfterTurns(file, start, cooldown, turns + [turn]) == Next(AfterTurns(file, start, cooldown, turns), cooldown, turn)
  {
    assert (turns + [turn])[..|turns|] == turns;
  }

  lemma ThreeTurns(file: Seen, start: real, cooldown: real, a: Turn, b: Turn, c: Turn)
    ensures AfterTurns(file, start, cooldown, [a, b, c]) ==
            Next(Next(Next(History(file, file, [], start), cooldown, a), cooldown, b), cooldown, c)
  {
    OneTurnMore(file, start, cooldown, [], a);
    OneTurnMore(file, start, cooldown, [a], b);
    OneTurnMore(file, start, cooldown, [a, b], c);
    assert [] + [a] == [a] && [a] + [b] == [a, b] && [a, b] + [c] == [a, b, c];
  }

  lemma LongCooldownIsCutShort(cooldown: real)
    requires cooldown > RETENTION
    ensures !AlwaysKeeps(cooldown)
  {
    var first, other := SeenSlot("1", None, "09:00"), SeenSlot("2", None, "09:00");
    var gap := (RETENTION + cooldown) / 2.0;
    assert first.Key()[0] != other.Key()[0];
    ForgottenTooEarly(first, other, cooldown, gap);
    var turns := ForgettingTurns(first, other, gap);
    var sent := AfterTurns(map[], 0.0, cooldown, turns).sent;
    assert sent[0].key == sent[2].key && sent[2].at - sent[0].at < cooldown;
    assert !Apart(sent, cooldown);
  }

  /** The configured cooldown is kept over every history exactly when it is at most thirty days. */
  lemma CooldownIsKeptIff(cooldown: real)
    ensures AlwaysKeeps(cooldown) <==> cooldown <= RETENTION
  {
    if cooldown <= RETENTION {
      forall file, start, turns | InTime(start, turns) && EveryMarkKept(turns)
        ensures Apart(AfterTurns(file, start, cooldown, turns).sent, cooldown)
      {
        NotificationsStayApart(file, start, cooldown, turns);
      }
    } else {
      LongCooldownIsCutShort(cooldown);
    }
  }

  lemma UnsavedReport(file: Seen, cooldown: real, slot: SeenSlot, at: real)
    requires slot.Key() !in file
    ensures var h := AfterReport(History(file, file, [], at), cooldown, [slot], at, false);
            h.file == file && h.sent == [Notice(slot.Key(), at)]
  {
    SelectedOne(file, cooldown, slot, at);
    assert [] + NoticesOf([slot], at) == [Notice(slot.Key(), at)];
  }

  /** A report that was not saved, then a new process: the slot is notified again, however
      little time has passed. */
  lemma LostMarkRepeats(file: Seen, cooldown: real, slot: SeenSlot, sentAt: real, again: real)
    requires slot.Key() !in file && sentAt <= again
    ensures var turns := [Reported([slot], sentAt, false), Restarted(again), Reported([slot], again, true)];
            && InTime(sentAt, turns)
            && AfterTurns(file, sentAt, cooldown, turns).sent
               == [Notice(slot.Key(), sentAt), Notice(slot.Key(), again)]
  {
    var h0 := History(file, file, [], sentAt);
    ThreeTurns(file, sentAt, cooldown, Reported([slot], sentAt, false), Restarted(again), Reported([slot], again, true));
    var h1 := AfterReport(h0, cooldown, [slot], sentAt, false);
    UnsavedReport(file, cooldown, slot, sentAt);
    ReportedOne(h1.(seen := file, clock := again), cooldown, slot, again);
  }

  // ---------------------------------------------------------------------------
  // The store
  // ---------------------------------------------------------------------------

  /** No two notices of one key are too close, and none that matters is forgotten. */
  ghost predicate InOrder(h: History, cooldown: real) {
    Apart(h.sent, Distance(cooldown)) && Knows(h.seen, h.sent, h.clock)
  }

  lemma ReportStaysInOrder(h: History, cooldown: real, slots: seq<SeenSlot>, at: real, saves: bool)
    requires InOrder(h, cooldown) && h.clock <= at
    ensures InOrder(AfterReport(h, cooldown, slots, at, saves), cooldown) && InOrder(h.(clock := at), cooldown)
  {
    ReportIsInOrder(h.seen, cooldown, h.sent, h.clock, slots, at);
  }

  class StateStore {
    const cooldown: real
    var seen: Seen
    var file: Seen               // what a later process would load
    ghost var sent: seq<Notice>  // every notice so far, of this process and those before it
    ghost var clock: real        // the latest time the store was told

    constructor (cooldownSeconds: real)
      ensures cooldown == (if cooldownSeconds < 0.0 then 0.0 else cooldownSeconds)
      ensures seen == map[] && sent == [] && Valid()
    {
      cooldown := if cooldownSeconds < 0.0 then 0.0 else cooldownSeconds;
      seen, file, sent, clock := map[], map[], [], 0.0;
    }

    ghost predicate Valid()
      reads this
    {
      InOrder(State(), cooldown)
    }

    ghost function State(): History
      reads this
    {
      History(seen, file, sent, clock)
    }

    method SelectNew(slots: seq<SeenSlot>, now: real) returns (chosen: seq<SeenSlot>)
      ensures chosen == Selected(seen, cooldown, slots, now)
    {
      chosen := [];
      var seenKeys: set<string> := {};
      for i := 0 to |slots|
        invariant chosen == Selected(seen, cooldown, slots[..i], now) && seenKeys == KeysIn(slots[..i])
      {
        assert slots[..i + 1][..i] == slots[..i];
        if slots[i].Key() !in seenKeys && IsNew(seen, cooldown, slots[i].Key(), now) {
          chosen := chosen + [slots[i]];
        }
        seenKeys := seenKeys + {slots[i].Key()};
      }
      assert slots[..|slots|] == slots;
    }

    method MarkNotified(slots: seq<SeenSlot>, now: real)
      modifies this`seen
      ensures seen == Marked(old(seen), slots, now)
    {
      for i := 0 to |slots|
        invariant seen == Marked(old(seen), slots[..i], now)
      {
        assert KeysIn(slots[..i + 1]) == KeysIn(slots[..i]) + {slots[i].Key()};
        seen := seen[slots[i].Key() := now];
      }
      assert slots[..|slots|] == slots;
    }

    method Prune(now: real) returns (forgotten: nat)
      modifies this`seen
      ensures seen == Pruned(old(seen), now)
      ensures forgotten == |old(seen)| - |seen|
    {
      var stale := set k | k in seen && now - seen[k] > RETENTION;
      seen := seen - stale;
      assert seen == Pruned(old(seen), now);
      assert old(seen.Keys) == seen.Keys + stale && seen.Keys !! stale;
      return |stale|;
    }

    /** One replacement of the whole file, or none. */
    method Save(works: bool)
      modifies this`file
      ensures file == if works then seen else old(file)
    {
      if works {
        file := seen;
      }
    }

    /** A new process begins with what was saved. */
    method Load(ghost now: real)
      modifies this`seen, this`clock
      ensures State() == Next(old(State()), cooldown, Restarted(now))
    {
      seen := file;
      clock := now;
    }

    /** What follows the selection: notify, mark, forget what is stale, save. */
    method Notify(chosen: seq<SeenSlot>, now: real, saves: bool)
      modifies this
      ensures seen == Pruned(Marked(old(seen), chosen, now), now) && file == (if saves then seen else old(file))
      ensures sent == old(sent) + NoticesOf(chosen, now) && clock == now
    {
      sent, clock := sent + NoticesOf(chosen, now), now;
      MarkNotified(chosen, now);
      var forgotten := Prune(now);
      Save(saves);
    }

    /** One report; a dry run only selects.  A store that is in order stays so, whether or not the
        file could be written. */
    method Report(slots: seq<SeenSlot>, now: real, dryRun: bool, saves: bool) returns (chosen: seq<SeenSlot>)
      modifies this
      ensures chosen == Selected(old(seen), cooldown, slots, now)
      ensures State() == if dryRun then old(State()).(clock := now)
                         else AfterReport(old(State()), cooldown, slots, now, saves)
      ensures old(Valid()) && old(clock) <= now ==> Valid()
    {
      if Valid() && clock <= now {
        ReportStaysInOrder(State(), cooldown, slots, now, saves);
      }
      chosen := SelectNew(slots, now);
      if chosen == [] || dryRun {
        clock := now;
        return;
      }
      Notify(chosen, now, saves);
    }
  }

  /** A report whose file could not be written, a new process, the same report: both notify. */
  method ReportTwice(store: StateStore, slot: SeenSlot, sentAt: real, again: real)
    returns (first: seq<SeenSlot>, second: seq<SeenSlot>)
    requires store.seen == store.file && slot.Key() !in store.seen
    modifies store
    ensures first == [slot] && second == [slot]
  {
    SelectedOne(store.seen, store.cooldown, slot, sentAt);
    first := store.Report([slot], sentAt, false, false);
    store.Load(again);
    SelectedOne(store.seen, store.cooldown, slot, again);
    second := store.Report([slot], again, false, true);
  }
}
