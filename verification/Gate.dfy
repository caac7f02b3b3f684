/**
 When a run of the headless monitor sends anything, and when it pauses itself
 (api/headless_monitor.py, _blocked and classify; api/monitor_state.py, blocks and waiting).
 */
module Gate {
  import opened Common
  import Slots
  import Snapshot
  import opened Http
  import opened Scan
  import opened Protocol
  import opened Announcements

  predicate IsTraffic(e: Event) { e.Requested? || e.SavedSession? }

  ghost predicate AllTraffic(events: seq<Event>) { forall e <- events :: IsTraffic(e) }

  ghost predicate NoTraffic(events: seq<Event>) { forall e <- events :: !IsTraffic(e) }

  /** The event that makes every later run stop before it starts. */
  predicate IsPause(e: Event) { e.SavedState? && e.state.status == AuthRequired }

  ghost predicate HasPause(events: seq<Event>) { exists e <- events :: IsPause(e) }

  lemma {:induction false} RequestsAreTraffic(env: RunEnv, p: Persister<Digest>, n: nat)
    ensures AllTraffic(RequestsMade(env, p, n).1)
    ensures n > 0 ==> Requested(0) in RequestsMade(env, p, n).1
  {
    if n > 0 {
      RequestsAreTraffic(env, p, n - 1);
      assert Requested(n - 1) in RequestsMade(env, p, n).1;
    }
  }

  lemma RecordedIs(previous: Option<MonitorState>, status: Status, retryAfterAt: Option<real>, now: real, works: bool)
    ensures NoTraffic(Recorded(previous, status, retryAfterAt, now, works).1)
    ensures HasPause(Recorded(previous, status, retryAfterAt, now, works).1) <==> works && status == AuthRequired
  {
    if works {
      assert SavedState(TransitionTo(previous, status, retryAfterAt, now)) in Recorded(previous, status, retryAfterAt, now, works).1;
    }
  }

  lemma SpeakingIsQuiet(current: Snapshot.AvailabilitySnapshot, difference: Slots.AvailabilityDiff)
    ensures var events := [SavedSnapshot(current)] + if difference.Changed() then [Printed(difference)] else [];
            NoTraffic(events) && !HasPause(events)
  {
  }

  lemma ComparingIsQuiet(env: RunEnv, docs: Documents, readings: seq<CentreReading>, event: Option<Transition>)
    ensures var compared := Compare(env, docs.snapshot, readings, event).events;
            NoTraffic(compared) && !HasPause(compared)
  {
    var current := SnapshotRead(readings);
    SpeakingIsQuiet(current, Snapshot.DiffSnapshots(docs.snapshot, current, env.centres));
  }

  lemma TrafficIsNoPause(events: seq<Event>)
    requires AllTraffic(events)
    ensures !HasPause(events)
  {
  }

  lemma PassAsksSomething(env: RunEnv)
    ensures PassOf(env).next > 0
  {
    PassRequests(env.service, 0, env.centres, env.maxDates);
  }

  /** With a usable session a run pauses exactly when its pass came out as AUTH_REQUIRED. */
  lemma ScanPauses(docs: Documents, env: RunEnv, session: PersistedSession)
    ensures HasPause(ScanWith(docs, env, session).events) <==>
            env.stateWritable && StatusOf(PassOf(env).readings) == AuthRequired
    ensures Requested(0) in ScanWith(docs, env, session).events
  {
    var pass := PassOf(env);
    var requests := RequestsMade(env, Persister(Some(env.digest(session.jar)), false, 0), pass.next).1;
    var status := StatusOf(pass.readings);
    var retryAfterAt := RetryAfterAt(status, env.service.retry, env.scanTime);
    var recorded := Recorded(docs.state, status, retryAfterAt, env.scanTime, env.stateWritable);
    PassAsksSomething(env);
    RequestsAreTraffic(env, Persister(Some(env.digest(session.jar)), false, 0), pass.next);
    TrafficIsNoPause(requests);
    RecordedIs(docs.state, status, retryAfterAt, env.scanTime, env.stateWritable);
    var compared := Compare(env, docs.snapshot, pass.readings, recorded.0);
    ComparingIsQuiet(env, docs, pass.readings, recorded.0);
  }

  /** A run sends something exactly when no pause and no wait is in force and the stored
      session can be read and has not expired.  Otherwise not one request leaves. */
  lemma RequestsIffUsable(docs: Documents, env: RunEnv)
    ensures Requested(0) in MonitorOnce(docs, env) <==> Usable(docs, env)
    ensures !Usable(docs, env) ==> NoTraffic(MonitorOnce(docs, env))
  {
    var scan := ScanRun(docs, env).scan;
    if Usable(docs, env) {
      ScanPauses(docs, env, docs.session.value);
    } else {
      RecordedIs(docs.state, AuthRequired, None, env.scanTime, env.stateWritable);
      assert NoTraffic(ScanRun(docs, env).events);
    }
  }

  /** A gate that is open, and a session document that can be read. */
  predicate GetsToSession(docs: Documents, env: RunEnv) {
    env.stateReadable && Blocked(docs.state, env.gateTime).None? && env.sessionReadable
  }

  predicate NoUsableSession(docs: Documents, env: RunEnv) {
    docs.session.None? || docs.session.value.Expired(env.sessionTime)
  }

  ghost predicate SomeRefusal(env: RunEnv) {
    exists i :: 0 <= i < PassOf(env).next && Refused(env.service.replies(i))
  }

  /** A run pauses the monitor exactly when there is no usable session, or a physical answer
      of its pass was a 401 or 403: no rate limit, outage or timeout ever does, however
      many retries it used up. */
  lemma PausesIff(docs: Documents, env: RunEnv)
    requires env.centres != []
    ensures HasPause(MonitorOnce(docs, env)) <==>
            GetsToSession(docs, env) && env.stateWritable && (NoUsableSession(docs, env) || SomeRefusal(env))
  {
    var scan := ScanRun(docs, env).scan;
    if GetsToSession(docs, env) {
      if NoUsableSession(docs, env) {
        var recorded := Recorded(docs.state, AuthRequired, None, env.scanTime, env.stateWritable);
        RecordedIs(docs.state, AuthRequired, None, env.scanTime, env.stateWritable);
      } else {
        ScanPauses(docs, env, docs.session.value);
        AuthRequiredIff(env.service, 0, env.centres, env.maxDates);
      }
    }
  }

  /** While a rate limit is waited out, a run does nothing at all. */
  lemma WaitingRunDoesNothing(docs: Documents, env: RunEnv)
    requires docs.state.Some? && docs.state.value.Waiting(env.gateTime)
    ensures MonitorOnce(docs, env) == []
  {
  }

  /** A rate-limited run stores the moment to wait for: the retry cap from its own clock. */
  lemma RateLimitIsWaitedOut(docs: Documents, env: RunEnv, session: PersistedSession, now: real)
    requires StatusOf(PassOf(env).readings) == RateLimit && env.stateWritable
    ensures exists s :: SavedState(s) in ScanWith(docs, env, session).events
              && (s.Waiting(now) <==> now < env.scanTime + env.service.retry.maxRetryAfter)
  {
    var retryAfterAt := RetryAfterAt(RateLimit, env.service.retry, env.scanTime);
    var s := TransitionTo(docs.state, RateLimit, retryAfterAt, env.scanTime);
    assert SavedState(s) in ScanWith(docs, env, session).events;
  }
}
