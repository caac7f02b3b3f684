/**
 What is stored and what is announced, over every trace: the stored snapshot is the
 latest complete reading, announcements are true changes of it, and no change is
 announced twice.
 */
module Announcements {
  import opened Common
  import Calendar
  import opened Slots
  import opened Snapshot
  import opened Scan
  import opened Dicts
  import opened Sorting
  import opened Protocol

  // ---------------------------------------------------------------------------
  // The shape of a run
  // ---------------------------------------------------------------------------

  predicate Usable(docs: Documents, env: RunEnv) {
    && env.stateReadable && Blocked(docs.state, env.gateTime).None? && env.sessionReadable
    && docs.session.Some? && !docs.session.value.Expired(env.sessionTime)
  }

  /** The run reads every centre and could store the result. */
  predicate Completes(docs: Documents, env: RunEnv) {
    && Usable(docs, env) && StatusOf(PassOf(env).readings) == Ready
    && env.snapshotReadable && env.snapshotWritable
  }

  function Current(env: RunEnv): AvailabilitySnapshot { SnapshotRead(PassOf(env).readings) }

  function DiffOf(docs: Documents, env: RunEnv): AvailabilityDiff {
    DiffSnapshots(docs.snapshot, Current(env), env.centres)
  }

  predicate Bookkeeping(e: Event) { e.LoadedSession? || e.Requested? || e.SavedSession? || e.SavedState? }

  predicate AboutSnapshot(e: Event) { e.SavedSnapshot? || e.Printed? || (e.Notified? && e.news.Change?) }

  ghost predicate AllBookkeeping(events: seq<Event>) { forall e <- events :: Bookkeeping(e) }

  ghost predicate NoneAboutSnapshot(events: seq<Event>) { forall e <- events :: !AboutSnapshot(e) }

  lemma {:induction false} RequestsAreBookkeeping(env: RunEnv, p: Persister<Digest>, n: nat)
    ensures AllBookkeeping(RequestsMade(env, p, n).1)
  {
    if n > 0 {
      RequestsAreBookkeeping(env, p, n - 1);
    }
  }

  /** Everything a completing run does before it stores the snapshot. */
  function Head(docs: Documents, env: RunEnv): seq<Event>
    requires docs.session.Some?
  {
    [LoadedSession]
    + RequestsMade(env, Persister(Some(env.digest(docs.session.value.jar)), false, 0), PassOf(env).next).1
    + Recorded(docs.state, Ready, None, env.scanTime, env.stateWritable).1
  }

  /** What it does from there on: store, print, notify. */
  function Tail(diff: AvailabilityDiff, current: AvailabilitySnapshot, notifies: bool): seq<Event> {
    [SavedSnapshot(current)]
    + if diff.Changed() then [Printed(diff)] + (if notifies then [Notified(Change(diff))] else []) else []
  }

  lemma HeadIsBookkeeping(docs: Documents, env: RunEnv)
    requires docs.session.Some?
    ensures AllBookkeeping(Head(docs, env))
  {
    RequestsAreBookkeeping(env, Persister(Some(env.digest(docs.session.value.jar)), false, 0), PassOf(env).next);
  }

  lemma Regroup(a: seq<Event>, b: seq<Event>, c: seq<Event>, d: seq<Event>, e: seq<Event>)
    ensures a + (b + c + d) + e == (a + b + c) + (d + e)
  {
  }

  lemma TailIs(diff: AvailabilityDiff, current: AvailabilitySnapshot, notifies: bool, scan: HeadlessScan)
    requires scan.availability == Some(diff) && (scan.transition.Some? ==> scan.transition.value.current == Ready)
    ensures [SavedSnapshot(current)] + (if diff.Changed() then [Printed(diff)] else []) + Dispatched(scan, notifies)
            == Tail(diff, current, notifies)
  {
  }

  /** A completing run keeps its books, then stores the snapshot, then speaks. */
  lemma CompletingRun(docs: Documents, env: RunEnv)
    requires Completes(docs, env)
    ensures MonitorOnce(docs, env) == Head(docs, env) + Tail(DiffOf(docs, env), Current(env), env.notifies)
    ensures AllBookkeeping(Head(docs, env))
  {
    HeadIsBookkeeping(docs, env);
    var requests := RequestsMade(env, Persister(Some(env.digest(docs.session.value.jar)), false, 0), PassOf(env).next).1;
    var recorded := Recorded(docs.state, Ready, None, env.scanTime, env.stateWritable);
    var scan := HeadlessScan(ExitOk, recorded.0, Some(DiffOf(docs, env)));
    var spoken := [SavedSnapshot(Current(env))] + if DiffOf(docs, env).Changed() then [Printed(DiffOf(docs, env))] else [];
    assert Compare(env, docs.snapshot, PassOf(env).readings, recorded.0) == Run(scan, spoken);
    assert MonitorOnce(docs, env) == [LoadedSession] + (requests + recorded.1 + spoken) + Dispatched(scan, env.notifies);
    Regroup([LoadedSession], requests, recorded.1, spoken, Dispatched(scan, env.notifies));
    TailIs(DiffOf(docs, env), Current(env), env.notifies, scan);
  }

  lemma OtherScan(docs: Documents, env: RunEnv, session: PersistedSession)
    requires StatusOf(PassOf(env).readings) == Ready ==> !env.snapshotReadable || !env.snapshotWritable
    ensures NoneAboutSnapshot(ScanWith(docs, env, session).events)
    ensures ScanWith(docs, env, session).scan.availability.None?
  {
    RequestsAreBookkeeping(env, Persister(Some(env.digest(session.jar)), false, 0), PassOf(env).next);
  }

  /** Any other run has nothing to do with the snapshot. */
  lemma OtherRun(docs: Documents, env: RunEnv)
    requires !Completes(docs, env)
    ensures NoneAboutSnapshot(MonitorOnce(docs, env))
  {
    if Usable(docs, env) {
      OtherScan(docs, env, docs.session.value);
    }
  }

  // ---------------------------------------------------------------------------
  // One step of a trace
  // ---------------------------------------------------------------------------

  /** The step read every centre and its new snapshot reached the database. */
  predicate StoresSnapshot(docs: Documents, action: Action) {
    action.Monitor? && Completes(docs, action.env) && |Head(docs, action.env)| < action.crash
  }

  lemma {:induction false} OthersKeepSnapshot(docs: Documents, events: seq<Event>)
    requires forall e <- events :: !e.SavedSnapshot?
    ensures ApplyAll(docs, events).snapshot == docs.snapshot
  {
    if events != [] {
      assert events[|events| - 1] in events && forall e <- events[..|events| - 1] :: e in events;
      OthersKeepSnapshot(docs, events[..|events| - 1]);
    }
  }

  lemma TailStores(docs: Documents, head: seq<Event>, current: AvailabilitySnapshot, spoken: seq<Event>)
    requires forall e <- spoken :: !e.SavedSnapshot?
    ensures ApplyAll(docs, head + ([SavedSnapshot(current)] + spoken)).snapshot == Some(Persisted(current))
  {
    var stored := head + [SavedSnapshot(current)];
    assert head + ([SavedSnapshot(current)] + spoken) == stored + spoken;
    ApplyAllAppend(docs, stored, spoken);
    assert stored[..|stored| - 1] == head;
    assert ApplyAll(docs, stored) == Apply(ApplyAll(docs, head), SavedSnapshot(current));
    OthersKeepSnapshot(ApplyAll(docs, stored), spoken);
  }

  /** What is said after storing is the change itself: printed at most once, and sent at
      most once. */
  lemma SpokenIsNews(diff: AvailabilityDiff, current: AvailabilitySnapshot, notifies: bool, spoken: seq<Event>)
    requires spoken <= Tail(diff, current, notifies)[1..]
    ensures forall e <- spoken :: e == Printed(diff) || e == Notified(Change(diff))
    ensures spoken == [] || spoken == [Printed(diff)] || spoken == [Printed(diff), Notified(Change(diff))]
    ensures !diff.Changed() ==> spoken == []
  {
  }

  /** Killed before the snapshot was stored, a run has only kept its books. */
  lemma CutEarly(head: seq<Event>, tail: seq<Event>, crash: nat)
    requires AllBookkeeping(head) && crash <= |head| && tail != []
    ensures NoneAboutSnapshot(Cut(head + tail, crash))
  {
    forall e | e in Cut(head + tail, crash) ensures !AboutSnapshot(e) {
      assert Cut(head + tail, crash) == head[..crash];
      assert e in head && Bookkeeping(e);
    }
  }

  /** Otherwise it has stored the snapshot and begun to speak. */
  lemma CutLate(head: seq<Event>, diff: AvailabilityDiff, current: AvailabilitySnapshot, notifies: bool, crash: nat)
    returns (spoken: seq<Event>)
    requires crash > |head|
    ensures Cut(head + Tail(diff, current, notifies), crash) == head + ([SavedSnapshot(current)] + spoken)
    ensures spoken <= Tail(diff, current, notifies)[1..]
  {
    var tail := Tail(diff, current, notifies);
    var n := if crash < |head + tail| then crash else |head + tail|;
    spoken := tail[1..n - |head|];
    assert tail[..n - |head|] == [SavedSnapshot(current)] + spoken;
    assert (head + tail)[..n] == head + tail[..n - |head|];
  }

  /** What lands of a storing step: its books, the snapshot, and a beginning of what it says. */
  lemma StoringStep(docs: Documents, action: Action) returns (spoken: seq<Event>)
    requires StoresSnapshot(docs, action)
    ensures var diff, current := DiffOf(docs, action.env), Current(action.env);
            && Landed(docs, action) == Head(docs, action.env) + ([SavedSnapshot(current)] + spoken)
            && spoken <= Tail(diff, current, action.env.notifies)[1..]
            && AllBookkeeping(Head(docs, action.env))
  {
    CompletingRun(docs, action.env);
    spoken := CutLate(Head(docs, action.env), DiffOf(docs, action.env), Current(action.env), action.env.notifies,
                      action.crash);
  }

  /** Nothing that lands of any other step has to do with the snapshot. */
  lemma OtherStep(docs: Documents, action: Action)
    requires !StoresSnapshot(docs, action)
    ensures NoneAboutSnapshot(Landed(docs, action))
  {
    if action.Monitor? {
      if Completes(docs, action.env) {
        CompletingRun(docs, action.env);
        CutEarly(Head(docs, action.env), Tail(DiffOf(docs, action.env), Current(action.env), action.env.notifies),
                 action.crash);
      } else {
        OtherRun(docs, action.env);
        CutKeeps(MonitorOnce(docs, action.env), action.crash);
      }
    } else {
      CutKeeps(RefreshSession(docs, action.refresh), action.crash);
    }
  }

  lemma CutKeeps(events: seq<Event>, crash: nat)
    ensures forall e <- Cut(events, crash) :: e in events
  {
  }

  /** A step that stores the snapshot leaves exactly what it read, without seconds; any
      other step (partial, refused, gated, unsaved, killed too early) leaves it alone. */
  lemma SnapshotStep(docs: Documents, action: Action)
    ensures Step(docs, action).snapshot ==
            if StoresSnapshot(docs, action) then Some(Persisted(Current(action.env))) else docs.snapshot
  {
    if StoresSnapshot(docs, action) {
      StoringStepStores(docs, action);
    } else {
      OtherStep(docs, action);
      OthersKeepSnapshot(docs, Landed(docs, action));
    }
  }

  lemma StoringStepStores(docs: Documents, action: Action)
    requires StoresSnapshot(docs, action)
    ensures Step(docs, action).snapshot == Some(Persisted(Current(action.env)))
  {
    var spoken := StoringStep(docs, action);
    LandedStores(docs, Landed(docs, action), Head(docs, action.env), DiffOf(docs, action.env), Current(action.env),
                 action.env.notifies, spoken);
  }

  lemma LandedStores(
    docs: Documents, landed: seq<Event>, head: seq<Event>, diff: AvailabilityDiff, current: AvailabilitySnapshot,
    notifies: bool, spoken: seq<Event>)
    requires landed == head + ([SavedSnapshot(current)] + spoken)
    requires spoken <= Tail(diff, current, notifies)[1..] && AllBookkeeping(head)
    ensures ApplyAll(docs, landed).snapshot == Some(Persisted(current))
  {
    SpokenIsNews(diff, current, notifies, spoken);
    TailStores(docs, head, current, spoken);
  }

  /** The stored snapshot after a trace: the latest one stored, or the first. */
  function LatestSnapshot(docs: Documents, actions: seq<Action>): Option<AvailabilitySnapshot> {
    if actions == [] then docs.snapshot
    else
      var n := |actions| - 1;
      if StoresSnapshot(After(docs, actions[..n]), actions[n]) then Some(Persisted(Current(actions[n].env)))
      else LatestSnapshot(docs, actions[..n])
  }

  /** After any trace the stored snapshot is what the latest run that read every centre,
      and whose write landed, had read. */
  lemma {:induction false} SnapshotIsLatest(docs: Documents, actions: seq<Action>)
    ensures After(docs, actions).snapshot == LatestSnapshot(docs, actions)
  {
    if actions != [] {
      var n := |actions| - 1;
      SnapshotIsLatest(docs, actions[..n]);
      SnapshotStep(After(docs, actions[..n]), actions[n]);
    }
  }

  /** Such a run did read every centre it was asked about, completely. */
  lemma StoredMeansComplete(docs: Documents, action: Action)
    requires StoresSnapshot(docs, action)
    ensures forall r <- PassOf(action.env).readings :: r.complete
  {
  }

  // ---------------------------------------------------------------------------
  // Announcements
  // ---------------------------------------------------------------------------

  ghost function CountOf(events: seq<Event>, e: Event): nat { multiset(events)[e] }

  /** What a storing step says is its change and nothing else, printed and sent at most once. */
  ghost predicate SaysOnly(events: seq<Event>, diff: AvailabilityDiff) {
    && (forall d :: Printed(d) in events || Notified(Change(d)) in events ==> d == diff && diff.Changed())
    && CountOf(events, Printed(diff)) <= 1 && CountOf(events, Notified(Change(diff))) <= 1
  }

  lemma CountInParts(head: seq<Event>, current: AvailabilitySnapshot, spoken: seq<Event>, e: Event)
    requires AllBookkeeping(head) && AboutSnapshot(e) && !e.SavedSnapshot?
    ensures CountOf(head + ([SavedSnapshot(current)] + spoken), e) == CountOf(spoken, e)
    ensures e in head + ([SavedSnapshot(current)] + spoken) <==> e in spoken
  {
    assert e !in head;
    assert multiset(head)[e] == 0;
  }

  lemma PartsSayOnly(
    head: seq<Event>, diff: AvailabilityDiff, current: AvailabilitySnapshot, notifies: bool, spoken: seq<Event>)
    requires AllBookkeeping(head) && spoken <= Tail(diff, current, notifies)[1..]
    ensures SaysOnly(head + ([SavedSnapshot(current)] + spoken), diff)
  {
    SpokenIsNews(diff, current, notifies, spoken);
    var events := head + ([SavedSnapshot(current)] + spoken);
    CountInParts(head, current, spoken, Printed(diff));
    CountInParts(head, current, spoken, Notified(Change(diff)));
    forall d | Printed(d) in events || Notified(Change(d)) in events ensures d == diff && diff.Changed() {
      CountInParts(head, current, spoken, Printed(d));
      CountInParts(head, current, spoken, Notified(Change(d)));
    }
  }

  /** Whatever is printed or sent is the true change of a snapshot that was stored just
      before, in the same run, and it is said at most once. */
  lemma OnlyStoredChangesAreAnnounced(docs: Documents, action: Action)
    ensures StoresSnapshot(docs, action) ==> SaysOnly(Landed(docs, action), DiffOf(docs, action.env))
    ensures !StoresSnapshot(docs, action) ==>
              forall d :: Printed(d) !in Landed(docs, action) && Notified(Change(d)) !in Landed(docs, action)
  {
    if StoresSnapshot(docs, action) {
      var spoken := StoringStep(docs, action);
      PartsSayOnly(Head(docs, action.env), DiffOf(docs, action.env), Current(action.env), action.env.notifies, spoken);
    } else {
      OtherStep(docs, action);
      forall d ensures Printed(d) !in Landed(docs, action) && Notified(Change(d)) !in Landed(docs, action) {
        assert AboutSnapshot(Printed(d)) && AboutSnapshot(Notified(Change(d)));
      }
    }
  }

  /** The changes a list of effects sends to someone, in order. */
  function Sent(events: seq<Event>): seq<AvailabilityDiff> {
    if events == [] then []
    else
      var last := events[|events| - 1];
      Sent(events[..|events| - 1]) + if last.Notified? && last.news.Change? then [last.news.diff] else []
  }

  lemma {:induction false} SentAppend(a: seq<Event>, b: seq<Event>)
    ensures Sent(a + b) == Sent(a) + Sent(b)
  {
    if b == [] {
      assert a + b == a;
    } else {
      assert (a + b)[..|a + b| - 1] == a + b[..|b| - 1];
      SentAppend(a, b[..|b| - 1]);
    }
  }

  lemma {:induction false} NothingSent(events: seq<Event>)
    requires NoneAboutSnapshot(events)
    ensures Sent(events) == []
  {
    if events != [] {
      assert events[|events| - 1] in events && forall e <- events[..|events| - 1] :: e in events;
      NothingSent(events[..|events| - 1]);
    }
  }

  lemma {:induction false} BookkeepingSendsNothing(events: seq<Event>)
    requires AllBookkeeping(events)
    ensures Sent(events) == []
  {
    if events != [] {
      assert events[|events| - 1] in events && forall e <- events[..|events| - 1] :: e in events;
      BookkeepingSendsNothing(events[..|events| - 1]);
    }
  }

  lemma SpokenSendsOnce(diff: AvailabilityDiff, spoken: seq<Event>)
    requires spoken == [] || spoken == [Printed(diff)] || spoken == [Printed(diff), Notified(Change(diff))]
    ensures Sent(spoken) == [] || Sent(spoken) == [diff]
  {
    assert [Printed(diff)][..0] == [];
    assert Sent([Printed(diff)]) == [];
    assert [Printed(diff), Notified(Change(diff))][..1] == [Printed(diff)];
  }

  lemma StoredSendsOnce(
    head: seq<Event>, diff: AvailabilityDiff, current: AvailabilitySnapshot, notifies: bool, spoken: seq<Event>)
    requires AllBookkeeping(head) && spoken <= Tail(diff, current, notifies)[1..]
    ensures var sent := Sent(head + ([SavedSnapshot(current)] + spoken)); sent == [] || sent == [diff]
  {
    SpokenIsNews(diff, current, notifies, spoken);
    SpokenSendsOnce(diff, spoken);
    BookkeepingSendsNothing(head);
    SentAppend(head, [SavedSnapshot(current)] + spoken);
    SentAppend([SavedSnapshot(current)], spoken);
    assert [SavedSnapshot(current)][..0] == [];
    assert Sent([SavedSnapshot(current)]) == [];
  }

  /** One step sends its own stored change, or nothing. */
  lemma StepSends(docs: Documents, action: Action)
    ensures Sent(Landed(docs, action)) == []
            || (StoresSnapshot(docs, action) && Sent(Landed(docs, action)) == [DiffOf(docs, action.env)])
  {
    if StoresSnapshot(docs, action) {
      var spoken := StoringStep(docs, action);
      StoredSendsOnce(Head(docs, action.env), DiffOf(docs, action.env), Current(action.env), action.env.notifies, spoken);
    } else {
      OtherStep(docs, action);
      NothingSent(Landed(docs, action));
    }
  }

  /** The changes of the stored snapshot over a trace, in order. */
  function StoredChanges(docs: Documents, actions: seq<Action>): seq<AvailabilityDiff> {
    if actions == [] then []
    else
      var n := |actions| - 1;
      StoredChanges(docs, actions[..n])
      + if StoresSnapshot(After(docs, actions[..n]), actions[n]) then [DiffOf(After(docs, actions[..n]), actions[n].env)] else []
  }

  /** The first list is the second with some members left out. */
  predicate Subsequence<T(==)>(some: seq<T>, all: seq<T>)
    decreases all
  {
    if some == [] then true
    else if all == [] then false
    else
      || Subsequence(some, all[..|all| - 1])
      || (some[|some| - 1] == all[|all| - 1] && Subsequence(some[..|some| - 1], all[..|all| - 1]))
  }

  lemma OneMoreMember<T>(some: seq<T>, all: seq<T>, next: seq<T>, change: seq<T>)
    requires Subsequence(some, all) && |change| <= 1 && (next == [] || next == change)
    ensures Subsequence(some + next, all + change)
  {
    assert some + [] == some && all + [] == all;
    if change != [] {
      assert (all + change)[..|all|] == all && (some + change)[..|some|] == some;
    }
  }

  /** Over any trace, what is sent is a subsequence of the true changes: a crash can lose an
      announcement, and nothing can repeat or invent one. */
  lemma {:induction false} SentIsASubsequence(docs: Documents, actions: seq<Action>)
    ensures Subsequence(Sent(History(docs, actions)), StoredChanges(docs, actions))
  {
    if actions != [] {
      var n := |actions| - 1;
      var before := After(docs, actions[..n]);
      SentIsASubsequence(docs, actions[..n]);
      SentAppend(History(docs, actions[..n]), Landed(before, actions[n]));
      StepSends(before, actions[n]);
      var change := if StoresSnapshot(before, actions[n]) then [DiffOf(before, actions[n].env)] else [];
      OneMoreMember(Sent(History(docs, actions[..n])), StoredChanges(docs, actions[..n]), Sent(Landed(before, actions[n])),
                    change);
    }
  }

  // ---------------------------------------------------------------------------
  // Replay
  // ---------------------------------------------------------------------------

  /** What a stored snapshot always is: well formed, and in whole minutes. */
  ghost predicate ValidDocuments(docs: Documents) {
    docs.snapshot.Some? ==> Valid(docs.snapshot.value) && forall c :: OnMinutes(KeysAt(docs.snapshot.value, c))
  }

  lemma SlotsOfCentre(reading: CentreReading)
    ensures WithSlots(reading).0 == reading.centre && forall x <- WithSlots(reading).1 :: x.centre == reading.centre
  {
    SortMembers(SlotsOf(reading), SlotLeq);
    forall x | x in SlotsOf(reading) ensures x.centre == reading.centre {
      var i :| 0 <= i < |SlotsOf(reading)| && SlotsOf(reading)[i] == x;
    }
  }

  lemma CurrentIsValid(env: RunEnv)
    ensures Valid(Current(env))
    ensures forall c <- env.centres :: Find(Current(env), c).Some?
  {
    var readings := PassOf(env).readings;
    var pairs := Map(readings, WithSlots);
    forall p | p in pairs ensures forall x <- p.1 :: x.centre == p.0 {
      var i :| 0 <= i < |pairs| && pairs[i] == p;
      SlotsOfCentre(readings[i]);
    }
    SnapshotOfIsValid(pairs);
    SnapshotOfIs(pairs);
    PassCentres(env.service, 0, env.centres, env.maxDates);
    forall c | c in env.centres ensures Find(Current(env), c).Some? {
      var i :| 0 <= i < |env.centres| && env.centres[i] == c;
      assert pairs[i] in pairs && pairs[i].0 == c;
      FindIsMember(Current(env), c);
    }
  }

  lemma PersistedIsOnMinutes(s: AvailabilitySnapshot)
    requires Valid(s)
    ensures forall c :: OnMinutes(KeysAt(Persisted(s), c))
  {
    forall c ensures OnMinutes(KeysAt(Persisted(s), c)) {
      PersistedKeys(s, c);
      MinuteKeysAreOnMinutes(KeysAt(s, c));
    }
  }

  lemma {:induction false} DocumentsStayValid(docs: Documents, actions: seq<Action>)
    requires ValidDocuments(docs)
    ensures ValidDocuments(After(docs, actions))
  {
    if actions != [] {
      var n := |actions| - 1;
      DocumentsStayValid(docs, actions[..n]);
      SnapshotStep(After(docs, actions[..n]), actions[n]);
      if StoresSnapshot(After(docs, actions[..n]), actions[n]) {
        CurrentIsValid(actions[n].env);
        PersistedIsValid(Current(actions[n].env));
        PersistedIsOnMinutes(Current(actions[n].env));
      }
    }
  }

  /** The change a run returns, when its snapshot was stored. */
  function StepDiff(docs: Documents, action: Action): Option<AvailabilityDiff> {
    if StoresSnapshot(docs, action) then Some(DiffOf(docs, action.env)) else None
  }

  /** The centre was known to begin with, and every storing run monitors it. */
  ghost predicate Steady(docs: Documents, actions: seq<Action>, c: string)
    decreases actions
  {
    if actions == [] then Known(docs.snapshot, c)
    else
      var n := |actions| - 1;
      && Steady(docs, actions[..n], c)
      && (StoresSnapshot(After(docs, actions[..n]), actions[n]) ==> c in actions[n].env.centres)
  }

  /** One change, replayed on the known keys of a centre: what was removed goes, and what was
      added comes, by the minute as the document keeps it. */
  ghost function ReplayOne(before: set<SlotKey>, diff: AvailabilityDiff, c: string): set<SlotKey> {
    (before - AtCentre(KeysOf(diff.removed), c)) + MinuteKeys(AtCentre(KeysOf(diff.added), c))
  }

  /** The keys of a centre according to the changes alone. */
  ghost function Replayed(docs: Documents, actions: seq<Action>, c: string): set<SlotKey> {
    if actions == [] then KeysBefore(docs.snapshot, c)
    else
      var n := |actions| - 1;
      var before := Replayed(docs, actions[..n], c);
      match StepDiff(After(docs, actions[..n]), actions[n])
      case None => before
      case Some(diff) => ReplayOne(before, diff, c)
  }

  lemma MinutesOfReplay(before: set<SlotKey>, removed: set<SlotKey>, added: set<SlotKey>)
    requires OnMinutes(before)
    ensures MinuteKeys((before - removed) + added) == (before - removed) + MinuteKeys(added)
  {
    MinuteKeysAreOnMinutes(before - removed);
    forall k | k in added ensures MinuteKey(k) in MinuteKeys((before - removed) + added) {
      assert k in (before - removed) + added;
    }
    forall k | k in before - removed ensures k in MinuteKeys((before - removed) + added) {
      assert MinuteKey(k) == k && k in (before - removed) + added;
    }
  }

  /** One storing step carries a steady centre's keys along, seconds or not. */
  lemma ReplayStep(docs: Documents, action: Action, c: string)
    requires ValidDocuments(docs) && Known(docs.snapshot, c) && StoresSnapshot(docs, action)
    requires c in action.env.centres
    ensures KeysBefore(Step(docs, action).snapshot, c) == ReplayOne(KeysBefore(docs.snapshot, c), DiffOf(docs, action.env), c)
    ensures Known(Step(docs, action).snapshot, c)
  {
    var current, diff := Current(action.env), DiffOf(docs, action.env);
    CurrentIsValid(action.env);
    SnapshotStep(docs, action);
    PersistedKeys(current, c);
    DiffReplays(docs.snapshot, current, action.env.centres, c);
    MinutesOfReplay(KeysBefore(docs.snapshot, c), AtCentre(KeysOf(diff.removed), c), AtCentre(KeysOf(diff.added), c));
  }

  /** Over any trace, replaying the returned changes onto what was known of a steady centre
      gives what is stored about it. */
  lemma {:induction false} ReplayIsStored(docs: Documents, actions: seq<Action>, c: string)
    requires ValidDocuments(docs) && Steady(docs, actions, c)
    ensures KeysBefore(After(docs, actions).snapshot, c) == Replayed(docs, actions, c)
    ensures Known(After(docs, actions).snapshot, c)
  {
    if actions != [] {
      var n := |actions| - 1;
      var before := After(docs, actions[..n]);
      ReplayIsStored(docs, actions[..n], c);
      DocumentsStayValid(docs, actions[..n]);
      if StoresSnapshot(before, actions[n]) {
        ReplayStep(before, actions[n], c);
      } else {
        SnapshotStep(before, actions[n]);
      }
    }
  }

  /** While the service gives whole minutes, a change replays as it was reported. */
  lemma ReplayOnMinutes(docs: Documents, action: Action, c: string)
    requires ValidDocuments(docs) && StoresSnapshot(docs, action) && StartsOnMinutes(Current(action.env), [c])
    ensures var diff := DiffOf(docs, action.env);
            MinuteKeys(AtCentre(KeysOf(diff.added), c)) == AtCentre(KeysOf(diff.added), c)
  {
    CurrentIsValid(action.env);
    DiffIs(docs.snapshot, Current(action.env), action.env.centres);
    assert c in [c];
    MinuteKeysAreOnMinutes(AtCentre(KeysOf(DiffOf(docs, action.env).added), c));
  }

  /** Every storing run of the trace read whole minutes at the centre. */
  ghost predicate MinutesThroughout(docs: Documents, actions: seq<Action>, c: string)
    decreases actions
  {
    actions != [] ==>
      var n := |actions| - 1;
      && MinutesThroughout(docs, actions[..n], c)
      && (StoresSnapshot(After(docs, actions[..n]), actions[n]) ==> StartsOnMinutes(Current(actions[n].env), [c]))
  }

  /** The changes replayed as they were reported. */
  ghost function ReplayedAsReported(docs: Documents, actions: seq<Action>, c: string): set<SlotKey> {
    if actions == [] then KeysBefore(docs.snapshot, c)
    else
      var n := |actions| - 1;
      var before := ReplayedAsReported(docs, actions[..n], c);
      match StepDiff(After(docs, actions[..n]), actions[n])
      case None => before
      case Some(diff) => (before - AtCentre(KeysOf(diff.removed), c)) + AtCentre(KeysOf(diff.added), c)
  }

  /** While the service gives whole minutes, replaying the changes as they were reported
      gives what is stored. */
  lemma {:induction false} ReplayInMinutesIsStored(docs: Documents, actions: seq<Action>, c: string)
    requires ValidDocuments(docs) && Steady(docs, actions, c) && MinutesThroughout(docs, actions, c)
    ensures KeysBefore(After(docs, actions).snapshot, c) == ReplayedAsReported(docs, actions, c)
  {
    ReplayIsStored(docs, actions, c);
    if actions != [] {
      var n := |actions| - 1;
      ReplayInMinutesIsStored(docs, actions[..n], c);
      ReplayIsStored(docs, actions[..n], c);
      if StoresSnapshot(After(docs, actions[..n]), actions[n]) {
        DocumentsStayValid(docs, actions[..n]);
        ReplayOnMinutes(After(docs, actions[..n]), actions[n], c);
      }
    }
  }

  // ---------------------------------------------------------------------------
  // Never twice
  // ---------------------------------------------------------------------------

  /** No change of the trace takes the slot away. */
  ghost predicate NeverRemoved(docs: Documents, actions: seq<Action>, k: SlotKey)
    decreases actions
  {
    actions != [] ==>
      var n := |actions| - 1;
      && NeverRemoved(docs, actions[..n], k)
      && var diff := StepDiff(After(docs, actions[..n]), actions[n]);
         diff.Some? ==> k !in KeysOf(diff.value.removed)
  }

  lemma {:induction false} HeldUntilRemoved(docs: Documents, actions: seq<Action>, k: SlotKey)
    requires k in KeysBefore(docs.snapshot, k.centre) && NeverRemoved(docs, actions, k)
    ensures k in Replayed(docs, actions, k.centre)
  {
    if actions != [] {
      HeldUntilRemoved(docs, actions[..|actions| - 1], k);
    }
  }

  /** Once a slot of a steady centre is stored, no run announces it as new until some
      run's change took it away. */
  lemma NotAnnouncedTwice(docs: Documents, actions: seq<Action>, action: Action, k: SlotKey)
    requires ValidDocuments(docs) && Steady(docs, actions, k.centre)
    requires k in KeysBefore(docs.snapshot, k.centre) && NeverRemoved(docs, actions, k)
    ensures var diff := StepDiff(After(docs, actions), action);
            diff.Some? ==> k !in KeysOf(diff.value.added)
  {
    HeldUntilRemoved(docs, actions, k);
    ReplayIsStored(docs, actions, k.centre);
    DocumentsStayValid(docs, actions);
    if StoresSnapshot(After(docs, actions), action) {
      CurrentIsValid(action.env);
      DiffIs(After(docs, actions).snapshot, Current(action.env), action.env.centres);
    }
  }

  /** A start with seconds is reported as new by every run that stores it, at any centre known before:
      what is stored keeps minutes, and is never that start. */
  lemma SecondsAreAlwaysNew(docs: Documents, action: Action, k: SlotKey)
    requires ValidDocuments(docs) && StoresSnapshot(docs, action)
    requires Known(docs.snapshot, k.centre) && k.centre in action.env.centres
    requires k in KeysAt(Current(action.env), k.centre) && !Calendar.WholeMinute(k.start)
    ensures k in KeysOf(DiffOf(docs, action.env).added)
  {
    CurrentIsValid(action.env);
    DiffIs(docs.snapshot, Current(action.env), action.env.centres);
    assert OnMinutes(KeysAt(docs.snapshot.value, k.centre));
  }

  /** So it is of every later run: after any trace, whatever was announced before. */
  lemma SecondsAreNewInEveryRun(docs: Documents, actions: seq<Action>, action: Action, k: SlotKey)
    requires ValidDocuments(docs) && StoresSnapshot(After(docs, actions), action)
    requires Known(After(docs, actions).snapshot, k.centre) && k.centre in action.env.centres
    requires k in KeysAt(Current(action.env), k.centre) && !Calendar.WholeMinute(k.start)
    ensures k in KeysOf(DiffOf(After(docs, actions), action.env).added)
  {
    DocumentsStayValid(docs, actions);
    SecondsAreAlwaysNew(After(docs, actions), action, k);
  }

  /** A slot is announced only if its centre was in the snapshot stored just before this run. */
  lemma OnlyKnownCentresAreAnnounced(docs: Documents, action: Action, x: AvailableSlot)
    requires ValidDocuments(docs) && StoresSnapshot(docs, action)
    requires x in DiffOf(docs, action.env).added || x in DiffOf(docs, action.env).removed
    ensures Known(docs.snapshot, x.centre) && x.centre in action.env.centres
  {
    CurrentIsValid(action.env);
    DiffIs(docs.snapshot, Current(action.env), action.env.centres);
    assert KeyOf(x) in KeysOf(DiffOf(docs, action.env).added) || KeyOf(x) in KeysOf(DiffOf(docs, action.env).removed);
  }
}
