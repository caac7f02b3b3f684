/**
 The stored monitor state over a trace (api/monitor_state.py): when the last success
 was, and when trouble is news (notifications/dispatcher.py).
 */
module States {
  import opened Common
  import Slots
  import Snapshot
  import opened Scan
  import opened Protocol
  import opened Announcements
  import opened Gate

  /** The states a list of effects writes, in order. */
  function StatesIn(events: seq<Event>): seq<MonitorState> {
    if events == [] then []
    else
      var last := events[|events| - 1];
      StatesIn(events[..|events| - 1]) + if last.SavedState? then [last.state] else []
  }

  lemma {:induction false} StatesInAppend(a: seq<Event>, b: seq<Event>)
    ensures StatesIn(a + b) == StatesIn(a) + StatesIn(b)
  {
    if b == [] {
      assert a + b == a;
    } else {
      var n := |b| - 1;
      assert (a + b)[..|a + b| - 1] == a + b[..n];
      StatesInAppend(a, b[..n]);
      Associative(StatesIn(a), StatesIn(b[..n]), if b[n].SavedState? then [b[n].state] else []);
    }
  }

  ghost predicate NoStates(events: seq<Event>) { forall e <- events :: !e.SavedState? }

  lemma {:induction false} NoStatesIn(events: seq<Event>)
    requires NoStates(events)
    ensures StatesIn(events) == []
  {
    if events != [] {
      assert events[|events| - 1] in events && forall e <- events[..|events| - 1] :: e in events;
      NoStatesIn(events[..|events| - 1]);
    }
  }

  /** The stored state is the last one written. */
  lemma {:induction false} StateIsLastWritten(docs: Documents, events: seq<Event>)
    ensures var states := StatesIn(events);
            ApplyAll(docs, events).state == if states == [] then docs.state else Some(states[|states| - 1])
  {
    if events != [] {
      StateIsLastWritten(docs, events[..|events| - 1]);
    }
  }

  // ---------------------------------------------------------------------------
  // What one step writes
  // ---------------------------------------------------------------------------

  function LastSuccess(state: Option<MonitorState>): Option<real> {
    if state.Some? then state.value.lastSuccessAt else None
  }

  /** A success stamps itself; anything else hands on the stamp it found. */
  predicate Stamped(state: MonitorState, before: Option<real>) {
    state.lastSuccessAt == if state.status == Ready then Some(state.updatedAt) else before
  }

  ghost predicate AtMostOneStamped(events: seq<Event>, before: Option<real>) {
    var states := StatesIn(events);
    states == [] || (|states| == 1 && Stamped(states[0], before))
  }

  lemma RecordedIsStamped(previous: Option<MonitorState>, status: Status, retryAfterAt: Option<real>, now: real, works: bool)
    ensures AtMostOneStamped(Recorded(previous, status, retryAfterAt, now, works).1, LastSuccess(previous))
  {
    if works {
      var s := TransitionTo(previous, status, retryAfterAt, now);
      assert [SavedState(s)][..0] == [] && StatesIn([SavedState(s)][..0]) == [];
      assert StatesIn([SavedState(s)]) == [s];
    }
  }

  lemma OnlyTheMiddleWrites(a: seq<Event>, middle: seq<Event>, b: seq<Event>, before: Option<real>)
    requires NoStates(a) && NoStates(b) && AtMostOneStamped(middle, before)
    ensures AtMostOneStamped(a + middle + b, before)
  {
    NoStatesIn(a);
    NoStatesIn(b);
    StatesInAppend(a, middle);
    StatesInAppend(a + middle, b);
    assert [] + StatesIn(middle) + [] == StatesIn(middle);
  }

  lemma {:induction false} RequestsWriteNoState(env: RunEnv, p: Persister<Digest>, n: nat)
    ensures NoStates(RequestsMade(env, p, n).1)
  {
    RequestsAreTraffic(env, p, n);
  }

  lemma ScanIsStamped(docs: Documents, env: RunEnv, session: PersistedSession)
    ensures AtMostOneStamped(ScanWith(docs, env, session).events, LastSuccess(docs.state))
  {
    var pass := PassOf(env);
    var requests := RequestsMade(env, Persister(Some(env.digest(session.jar)), false, 0), pass.next).1;
    var status := StatusOf(pass.readings);
    var retryAfterAt := RetryAfterAt(status, env.service.retry, env.scanTime);
    var recorded := Recorded(docs.state, status, retryAfterAt, env.scanTime, env.stateWritable);
    var rest := if status == Ready then Compare(env, docs.snapshot, pass.readings, recorded.0).events else [];
    RequestsWriteNoState(env, Persister(Some(env.digest(session.jar)), false, 0), pass.next);
    RecordedIsStamped(docs.state, status, retryAfterAt, env.scanTime, env.stateWritable);
    OnlyTheMiddleWrites(requests, recorded.1, rest, LastSuccess(docs.state));
    NothingMore(requests + recorded.1);
  }

  lemma NothingMore(events: seq<Event>)
    ensures events + [] == events
  {
  }

  lemma RunIsStamped(docs: Documents, env: RunEnv)
    ensures AtMostOneStamped(MonitorOnce(docs, env), LastSuccess(docs.state))
  {
    var scan := ScanRun(docs, env).scan;
    var none: seq<Event> := [];
    var recorded := Recorded(docs.state, AuthRequired, None, env.scanTime, env.stateWritable).1;
    var body := if !GetsToSession(docs, env) then none
                else if NoUsableSession(docs, env) then recorded
                else ScanWith(docs, env, docs.session.value).events;
    if GetsToSession(docs, env) {
      if NoUsableSession(docs, env) {
        RecordedIsStamped(docs.state, AuthRequired, None, env.scanTime, env.stateWritable);
      } else {
        ScanIsStamped(docs, env, docs.session.value);
      }
    }
    var loaded := if env.stateReadable && Blocked(docs.state, env.gateTime).None? then [LoadedSession] else none;
    assert ScanRun(docs, env).events == loaded + body;
    OnlyTheMiddleWrites(loaded, body, Dispatched(scan, env.notifies), LastSuccess(docs.state));
  }

  lemma RefreshIsStamped(docs: Documents, env: RefreshEnv)
    ensures AtMostOneStamped(RefreshSession(docs, env), LastSuccess(docs.state))
  {
    if env.authenticated && env.bootstrapped && env.sessionWritable {
      var previous := if env.stateReadable then docs.state else None;
      var recorded := Recorded(previous, Ready, None, env.now, env.stateWritable).1;
      RecordedIsStamped(previous, Ready, None, env.now, env.stateWritable);
      OnlyTheMiddleWrites([SavedSession(SessionOf(env.jar))], recorded, [], LastSuccess(docs.state));
      assert [SavedSession(SessionOf(env.jar))] + recorded + [] == [SavedSession(SessionOf(env.jar))] + recorded;
    }
  }

  lemma CutIsStamped(events: seq<Event>, crash: nat, before: Option<real>)
    requires AtMostOneStamped(events, before)
    ensures AtMostOneStamped(Cut(events, crash), before)
  {
    if crash < |events| {
      StatesInAppend(events[..crash], events[crash..]);
      assert events == events[..crash] + events[crash..];
    }
  }

  /** A step writes at most one state, and stamps it as it should. */
  lemma StepIsStamped(docs: Documents, action: Action)
    ensures AtMostOneStamped(Landed(docs, action), LastSuccess(docs.state))
  {
    match action
    case Monitor(env, crash) =>
      RunIsStamped(docs, env);
      CutIsStamped(MonitorOnce(docs, env), crash, LastSuccess(docs.state));
    case Refresh(env, crash) =>
      RefreshIsStamped(docs, env);
      CutIsStamped(RefreshSession(docs, env), crash, LastSuccess(docs.state));
  }

  // ---------------------------------------------------------------------------
  // The last success
  // ---------------------------------------------------------------------------

  /** The time of the last success among the states written, or what it was before. */
  function LatestReady(states: seq<MonitorState>, before: Option<real>): Option<real> {
    if states == [] then before
    else if states[|states| - 1].status == Ready then Some(states[|states| - 1].updatedAt)
    else LatestReady(states[..|states| - 1], before)
  }

  lemma {:induction false} LatestReadyAppend(a: seq<MonitorState>, b: seq<MonitorState>, before: Option<real>)
    ensures LatestReady(a + b, before) == LatestReady(b, LatestReady(a, before))
  {
    if b == [] {
      assert a + b == a;
    } else {
      assert (a + b)[..|a + b| - 1] == a + b[..|b| - 1];
      LatestReadyAppend(a, b[..|b| - 1], before);
    }
  }

  /** After any trace the stored state carries the time of the last success that was ever
      written: no failure, crash or refused session loses it. */
  lemma {:induction false} LastSuccessSurvives(docs: Documents, actions: seq<Action>)
    ensures LastSuccess(After(docs, actions).state) == LatestReady(StatesIn(History(docs, actions)), LastSuccess(docs.state))
  {
    if actions != [] {
      var n := |actions| - 1;
      var before, landed := After(docs, actions[..n]), Landed(After(docs, actions[..n]), actions[n]);
      LastSuccessSurvives(docs, actions[..n]);
      StepIsStamped(before, actions[n]);
      StateIsLastWritten(before, landed);
      StatesInAppend(History(docs, actions[..n]), landed);
      LatestReadyAppend(StatesIn(History(docs, actions[..n])), StatesIn(landed), LastSuccess(docs.state));
    }
  }

  // ---------------------------------------------------------------------------
  // Trouble is news once
  // ---------------------------------------------------------------------------

  ghost predicate TellsNobody(events: seq<Event>) { forall e <- events :: !e.Notified? }

  lemma ComparedTellsNobody(env: RunEnv, previous: Option<Snapshot.AvailabilitySnapshot>, readings: seq<CentreReading>,
                            event: Option<Transition>)
    ensures TellsNobody(Compare(env, previous, readings, event).events)
  {
  }

  lemma TrafficTellsNobody(env: RunEnv, p: Persister<Digest>, n: nat)
    ensures TellsNobody(RequestsMade(env, p, n).1)
  {
    RequestsAreTraffic(env, p, n);
  }

  lemma SessionTellsNobody(docs: Documents, env: RunEnv, session: PersistedSession)
    ensures TellsNobody(ScanWith(docs, env, session).events)
  {
    var pass := PassOf(env);
    var status := StatusOf(pass.readings);
    var retryAfterAt := RetryAfterAt(status, env.service.retry, env.scanTime);
    var recorded := Recorded(docs.state, status, retryAfterAt, env.scanTime, env.stateWritable);
    TrafficTellsNobody(env, Persister(Some(env.digest(session.jar)), false, 0), pass.next);
    ComparedTellsNobody(env, docs.snapshot, pass.readings, recorded.0);
  }

  /** The scan itself tells nobody anything: only what is dispatched after it does. */
  lemma ScanTellsNobody(docs: Documents, env: RunEnv)
    ensures TellsNobody(ScanRun(docs, env).events)
  {
    if Usable(docs, env) {
      SessionTellsNobody(docs, env, docs.session.value);
    }
  }

  /** A step tells of trouble only when the stored status was another one. */
  lemma TroubleIsNews(docs: Documents, action: Action, status: Status)
    requires Notified(Trouble(status)) in Landed(docs, action)
    ensures status != Ready && StatusIn(docs.state) != Some(status)
  {
    CutKeeps(Intended(docs, action), action.crash);
    match action
    case Monitor(env, _) =>
      ScanTellsNobody(docs, env);
    case Refresh(env, _) =>
  }

  /** While the stored status stays what it is, nobody is told of it again. */
  lemma {:induction false} TroubleIsToldOnce(docs: Documents, actions: seq<Action>, status: Status)
    requires StatusIn(docs.state) == Some(status)
    requires forall s <- StatesIn(History(docs, actions)) :: s.status == status
    ensures StatusIn(After(docs, actions).state) == Some(status)
    ensures Notified(Trouble(status)) !in History(docs, actions)
  {
    if actions != [] {
      var n := |actions| - 1;
      var before, landed := After(docs, actions[..n]), Landed(After(docs, actions[..n]), actions[n]);
      StatesInAppend(History(docs, actions[..n]), landed);
      TroubleIsToldOnce(docs, actions[..n], status);
      StateIsLastWritten(before, landed);
      if Notified(Trouble(status)) in landed {
        TroubleIsNews(before, actions[n], status);
      }
    }
  }
}
