/**
 What the protocol promises over every trace of runs, refreshes, failed loads,
 failed writes and crashes.
 */
module Traces {
  import opened Scan
  import opened Protocol

  // ---------------------------------------------------------------------------
  // Paused means paused
  // ---------------------------------------------------------------------------

  predicate Paused(docs: Documents) { docs.state.Some? && docs.state.value.status == AuthRequired }

  /** The documents are what the history of writes made them. */
  lemma {:induction false} AfterIsHistory(docs: Documents, actions: seq<Action>)
    ensures After(docs, actions) == ApplyAll(docs, History(docs, actions))
  {
    if actions != [] {
      var n := |actions| - 1;
      AfterIsHistory(docs, actions[..n]);
      ApplyAllAppend(docs, History(docs, actions[..n]), Landed(After(docs, actions[..n]), actions[n]));
    }
  }

  lemma PausedStep(docs: Documents, action: Action)
    requires Paused(docs) && action.Monitor?
    ensures Landed(docs, action) == [] && Step(docs, action) == docs
  {
  }

  /** From a stored AUTH_REQUIRED, runs of the monitor do nothing at all: no request,
      no session load, no write, no message. */
  lemma {:induction false} PausedRunsDoNothing(docs: Documents, actions: seq<Action>)
    requires Paused(docs) && forall a <- actions :: a.Monitor?
    ensures History(docs, actions) == [] && After(docs, actions) == docs
  {
    if actions != [] {
      var n := |actions| - 1;
      assert actions[n] in actions && forall a <- actions[..n] :: a in actions;
      PausedRunsDoNothing(docs, actions[..n]);
      PausedStep(docs, actions[n]);
    }
  }

  /** A refresh writes the session and then, perhaps, the cleared state; never the state alone. */
  predicate RefreshShaped(events: seq<Event>) {
    || events == []
    || (|events| == 1 && events[0].SavedSession?)
    || (|events| == 2 && events[0].SavedSession? && events[1].SavedState? && events[1].state.status == Ready)
  }

  lemma RefreshIsShaped(docs: Documents, action: Action)
    requires action.Refresh?
    ensures RefreshShaped(Landed(docs, action))
  {
  }

  ghost predicate OnlySessions(events: seq<Event>) { forall e <- events :: e.SavedSession? }

  lemma {:induction false} OnlySessionsKeepTheRest(docs: Documents, events: seq<Event>)
    requires OnlySessions(events)
    ensures ApplyAll(docs, events).state == docs.state && ApplyAll(docs, events).snapshot == docs.snapshot
  {
    if events != [] {
      assert events[|events| - 1] in events && forall e <- events[..|events| - 1] :: e in events;
      OnlySessionsKeepTheRest(docs, events[..|events| - 1]);
    }
  }

  /** The first thing to happen to a paused monitor's state is a refresh clearing it,
      with its session written just before. */
  ghost predicate ClearedByRefresh(events: seq<Event>, i: nat) {
    && 0 < i < |events| && OnlySessions(events[..i])
    && events[i].SavedState? && events[i].state.status == Ready
  }

  ghost predicate StaysPausedOrIsCleared(events: seq<Event>) {
    OnlySessions(events) || exists i: nat :: ClearedByRefresh(events, i)
  }

  lemma RefreshMayClear(before: seq<Event>, last: seq<Event>)
    requires OnlySessions(before) && RefreshShaped(last)
    ensures StaysPausedOrIsCleared(before + last)
  {
    if |last| == 2 {
      var i := |before| + 1;
      assert (before + last)[..i] == before + [last[0]] && (before + last)[i] == last[1];
      assert ClearedByRefresh(before + last, i);
    }
  }

  /**
   From a stored AUTH_REQUIRED, over any trace of runs and refreshes that fail or crash
   anywhere: either nothing but refreshed sessions was ever written, and the monitor is
   still paused with its snapshot untouched; or the first other effect is a refresh
   clearing the state directly after writing its session.
   */
  lemma {:induction false} PausedUntilRefreshed(docs: Documents, actions: seq<Action>)
    requires Paused(docs)
    ensures StaysPausedOrIsCleared(History(docs, actions))
    ensures OnlySessions(History(docs, actions)) ==>
              After(docs, actions).state == docs.state && After(docs, actions).snapshot == docs.snapshot
  {
    if actions != [] {
      var n := |actions| - 1;
      PausedUntilRefreshed(docs, actions[..n]);
      AfterIsHistory(docs, actions);
      var before := History(docs, actions[..n]);
      var last := Landed(After(docs, actions[..n]), actions[n]);
      if OnlySessions(before) {
        PausedActs(After(docs, actions[..n]), actions[n]);
        RefreshMayClear(before, last);
      } else {
        var i: nat :| ClearedByRefresh(before, i);
        assert ClearedByRefresh(History(docs, actions), i);
      }
      if OnlySessions(History(docs, actions)) {
        OnlySessionsKeepTheRest(docs, History(docs, actions));
      }
    }
  }

  lemma PausedActs(docs: Documents, action: Action)
    requires Paused(docs)
    ensures RefreshShaped(Landed(docs, action))
  {
  }
}
