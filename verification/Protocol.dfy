/**
 The headless monitor as a protocol over three stored documents: a session, a
 monitor state and a snapshot of the free slots (api/headless_monitor.py,
 api/monitor_state.py, api/session_store.py, notifications/dispatcher.py, cli.py).

 No memory outlives a run.  What a run does is the list of its effects, in order;
 a run that is killed leaves a beginning of that list behind.
 */
module Protocol {
  import opened Common
  import Calendar
  import opened Slots
  import opened Snapshot
  import opened Http
  import opened Scan
  import opened Sorting

  // ---------------------------------------------------------------------------
  // The documents
  // ---------------------------------------------------------------------------

  datatype Cookie = Cookie(name: string, value: string, expires: Option<real>)

  type Jar = seq<Cookie>

  const WIZARD_COOKIE := "__Host-next.equeue-session"

  /** What the persister compares instead of jars. */
  type Digest = string

  predicate NameLeq(a: Cookie, b: Cookie) { StringLeq(a.name, b.name) }

  function NameAndValue(c: Cookie): (string, string) { (c.name, c.value) }

  /** What a digest covers: the names and values, by name.  Nothing else of a cookie. */
  function Material(jar: Jar): seq<(string, string)> { Map(Sort(jar, NameLeq), NameAndValue) }

  function QueueExpiry(jar: Jar): Option<real> {
    if jar == [] then None
    else if jar[0].name == WIZARD_COOKIE then jar[0].expires
    else QueueExpiry(jar[1..])
  }

  datatype PersistedSession = PersistedSession(jar: Jar, expiresAt: Option<real>) {
    predicate Expired(now: real) { expiresAt.Some? && expiresAt.value <= now }
  }

  function SessionOf(jar: Jar): PersistedSession { PersistedSession(jar, QueueExpiry(jar)) }

  datatype MonitorState = MonitorState(
    status: Status,
    updatedAt: real,
    lastSuccessAt: Option<real>,
    retryAfterAt: Option<real>)
  {
    /** Only a rate limit waits, and only for a moment that is still to come. */
    predicate Waiting(now: real) { status == RateLimit && retryAfterAt.Some? && retryAfterAt.value > now }
  }

  datatype Documents = Documents(
    session: Option<PersistedSession>,
    state: Option<MonitorState>,
    snapshot: Option<AvailabilitySnapshot>)

  // ---------------------------------------------------------------------------
  // Effects
  // ---------------------------------------------------------------------------

  datatype News = Change(diff: AvailabilityDiff) | Trouble(status: Status)

  datatype Event =
    | LoadedSession
    | Requested(request: nat)
    | SavedSession(session: PersistedSession)
    | SavedState(state: MonitorState)
    | SavedSnapshot(snapshot: AvailabilitySnapshot)
    | Printed(diff: AvailabilityDiff)
    | Notified(news: News)

  /** Each document is replaced whole; the snapshot loses its seconds on the way. */
  function Apply(docs: Documents, event: Event): Documents {
    match event
    case SavedSession(session) => docs.(session := Some(session))
    case SavedState(state) => docs.(state := Some(state))
    case SavedSnapshot(snapshot) => docs.(snapshot := Some(Persisted(snapshot)))
    case _ => docs
  }

  function ApplyAll(docs: Documents, events: seq<Event>): Documents {
    if events == [] then docs else Apply(ApplyAll(docs, events[..|events| - 1]), events[|events| - 1])
  }

  lemma {:induction false} ApplyAllAppend(docs: Documents, a: seq<Event>, b: seq<Event>)
    ensures ApplyAll(docs, a + b) == ApplyAll(ApplyAll(docs, a), b)
  {
    if b == [] {
      assert a + b == a;
    } else {
      assert (a + b)[..|a + b| - 1] == a + b[..|b| - 1];
      ApplyAllAppend(docs, a, b[..|b| - 1]);
    }
  }

  // ---------------------------------------------------------------------------
  // Writing the jar back
  // ---------------------------------------------------------------------------

  /** What is remembered of the stored jar: a digest of some type. */
  datatype Persister<D> = Persister(last: Option<D>, degraded: bool, writes: nat)

  function Remember<D(==)>(p: Persister<D>, digest: D, works: bool): Persister<D> {
    if p.last == Some(digest) then p
    else if works then Persister(Some(digest), false, p.writes + 1)
    else p.(degraded := true)
  }

  /** What the persister does about the jar it is shown after an answer. */
  function Observe(p: Persister<Digest>, jar: Jar, digest: Digest, works: bool): (Persister<Digest>, seq<Event>) {
    var after := Remember(p, digest, works);
    (after, if after.writes == p.writes then [] else [SavedSession(SessionOf(jar))])
  }

  // ---------------------------------------------------------------------------
  // One run
  // ---------------------------------------------------------------------------

  /** Everything around one run of the monitor. */
  datatype RunEnv = RunEnv(
    service: Service,
    digest: Jar -> Digest,         // the fingerprint of a jar, a hash of its `Material`
    jars: nat -> Jar,              // the cookie jar after each answer
    jarSaves: nat -> bool,         // whether saving it then would work
    centres: seq<string>,
    maxDates: int,
    gateTime: real,                // the moments the run reads the clock at
    sessionTime: real,
    scanTime: real,
    stateReadable: bool,
    sessionReadable: bool,
    snapshotReadable: bool,
    stateWritable: bool,
    snapshotWritable: bool,
    notifies: bool)

  /** The requests `0 .. n` of a run, each followed by what the persister does. */
  function RequestsMade(env: RunEnv, p: Persister<Digest>, n: nat): (Persister<Digest>, seq<Event>) {
    if n == 0 then (p, [])
    else
      var before := RequestsMade(env, p, n - 1);
      var saved := Observe(before.0, env.jars(n - 1), env.digest(env.jars(n - 1)), env.jarSaves(n - 1));
      (saved.0, before.1 + [Requested(n - 1)] + saved.1)
  }

  datatype Transition = Transition(previous: Option<Status>, current: Status) {
    predicate Changed() { previous != Some(current) }
  }

  function TransitionTo(
    previous: Option<MonitorState>, status: Status, retryAfterAt: Option<real>, now: real): MonitorState
  {
    if status == Ready then MonitorState(Ready, now, Some(now), None)
    else MonitorState(status, now, if previous.Some? then previous.value.lastSuccessAt else None, retryAfterAt)
  }

  function StatusIn(state: Option<MonitorState>): Option<Status> {
    if state.Some? then Some(state.value.status) else None
  }

  /** The event of a change of state, if its write landed. */
  function Recorded(
    previous: Option<MonitorState>, status: Status, retryAfterAt: Option<real>, now: real, works: bool)
    : (Option<Transition>, seq<Event>)
  {
    if works then (Some(Transition(StatusIn(previous), status)),
                   [SavedState(TransitionTo(previous, status, retryAfterAt, now))])
    else (None, [])
  }

  datatype ExitCode = ExitOk | ExitAuthRequired | ExitPersistence | ExitServiceUnavailable | ExitRateLimited

  function ExitFor(status: Status): ExitCode {
    match status
    case Ready => ExitOk
    case AuthRequired => ExitAuthRequired
    case RateLimit => ExitRateLimited
    case ServiceUnavailable => ExitServiceUnavailable
  }

  datatype HeadlessScan = HeadlessScan(
    code: ExitCode,
    transition: Option<Transition>,
    availability: Option<AvailabilityDiff>)

  /** The gate: a stored state that lets no run begin. */
  function Blocked(state: Option<MonitorState>, now: real): Option<HeadlessScan> {
    if state.None? then None
    else if state.value.status == AuthRequired then Some(HeadlessScan(ExitAuthRequired, None, None))
    else if state.value.Waiting(now) then Some(HeadlessScan(ExitRateLimited, None, None))
    else None
  }

  function RetryAfterAt(status: Status, retry: RetryConfig, now: real): Option<real> {
    if status == RateLimit then Some(now + retry.maxRetryAfter) else None
  }

  datatype Run = Run(scan: HeadlessScan, events: seq<Event>)

  /** One free time of a centre, as it is remembered. */
  function SlotOf(centre: string, entry: ((Calendar.Date, Calendar.Clock), Option<Calendar.Clock>)): AvailableSlot {
    AvailableSlot(centre, entry.0.0, entry.0.1, entry.1)
  }

  function SlotsOf(reading: CentreReading): seq<AvailableSlot> {
    Map(reading.state, entry => SlotOf(reading.centre, entry))
  }

  function WithSlots(reading: CentreReading): (string, seq<AvailableSlot>) {
    (reading.centre, SortSlots(SlotsOf(reading)))
  }

  /** The snapshot of a complete pass. */
  function SnapshotRead(readings: seq<CentreReading>): AvailabilitySnapshot {
    SnapshotOf(Map(readings, WithSlots))
  }

  /** What a complete pass leads to: the change since the stored snapshot is reported only
      when the new snapshot could be stored, and after it. */
  function Compare(env: RunEnv, previous: Option<AvailabilitySnapshot>, readings: seq<CentreReading>,
                   event: Option<Transition>): Run
  {
    var current := SnapshotRead(readings);
    var difference := DiffSnapshots(previous, current, env.centres);
    if !env.snapshotReadable || !env.snapshotWritable then Run(HeadlessScan(ExitPersistence, event, None), [])
    else Run(HeadlessScan(ExitOk, event, Some(difference)),
             [SavedSnapshot(current)] + if difference.Changed() then [Printed(difference)] else [])
  }

  function PassOf(env: RunEnv): Pass { ReadCentres(env.service, 0, env.centres, env.maxDates) }

  /** What the run does once it has a usable session. */
  function ScanWith(docs: Documents, env: RunEnv, session: PersistedSession): Run {
    var pass := PassOf(env);
    var requests := RequestsMade(env, Persister(Some(env.digest(session.jar)), false, 0), pass.next);
    var status := StatusOf(pass.readings);
    var recorded := Recorded(docs.state, status, RetryAfterAt(status, env.service.retry, env.scanTime),
                             env.scanTime, env.stateWritable);
    if status != Ready then Run(HeadlessScan(ExitFor(status), recorded.0, None), requests.1 + recorded.1)
    else
      var compared := Compare(env, docs.snapshot, pass.readings, recorded.0);
      Run(compared.scan, requests.1 + recorded.1 + compared.events)
  }

  /** `run_headless_scan`: the gate, one read pass, the records. */
  function ScanRun(docs: Documents, env: RunEnv): Run {
    if !env.stateReadable then Run(HeadlessScan(ExitPersistence, None, None), [])
    else match Blocked(docs.state, env.gateTime)
      case Some(scan) => Run(scan, [])
      case None =>
        if !env.sessionReadable then Run(HeadlessScan(ExitPersistence, None, None), [LoadedSession])
        else if docs.session.None? || docs.session.value.Expired(env.sessionTime) then
          var recorded := Recorded(docs.state, AuthRequired, None, env.scanTime, env.stateWritable);
          Run(HeadlessScan(ExitAuthRequired, recorded.0, None), [LoadedSession] + recorded.1)
        else
          var rest := ScanWith(docs, env, docs.session.value);
          Run(rest.scan, [LoadedSession] + rest.events)
  }

  /** What a finished scan is worth telling anyone about. */
  function Dispatched(scan: HeadlessScan, notifies: bool): seq<Event> {
    if !notifies then []
    else
      (if scan.availability.Some? && scan.availability.value.Changed() then [Notified(Change(scan.availability.value))] else [])
      + (if scan.transition.Some? && scan.transition.value.Changed() && scan.transition.value.current != Ready
         then [Notified(Trouble(scan.transition.value.current))] else [])
  }

  /** `monitor-once` */
  function MonitorOnce(docs: Documents, env: RunEnv): seq<Event> {
    var run := ScanRun(docs, env);
    run.events + Dispatched(run.scan, env.notifies)
  }

  /** Everything around one `refresh-session`. */
  datatype RefreshEnv = RefreshEnv(
    authenticated: bool,     // a human signed in and the browser produced a session
    bootstrapped: bool,      // the queue cookie was created
    jar: Jar,
    sessionWritable: bool,
    stateReadable: bool,
    stateWritable: bool,
    now: real)

  /** `refresh-session`: the session first, and only then the state. */
  function RefreshSession(docs: Documents, env: RefreshEnv): seq<Event> {
    if !env.authenticated || !env.bootstrapped || !env.sessionWritable then []
    else
      var previous := if env.stateReadable then docs.state else None;
      [SavedSession(SessionOf(env.jar))] + Recorded(previous, Ready, None, env.now, env.stateWritable).1
  }

  // ---------------------------------------------------------------------------
  // Traces
  // ---------------------------------------------------------------------------

  /** A process, and after how many effects it is killed, if it gets that far. */
  datatype Action = Monitor(env: RunEnv, crash: nat) | Refresh(refresh: RefreshEnv, crash: nat)

  function Intended(docs: Documents, action: Action): seq<Event> {
    match action
    case Monitor(env, _) => MonitorOnce(docs, env)
    case Refresh(env, _) => RefreshSession(docs, env)
  }

  /** The effects a process lives to complete. */
  function Cut(events: seq<Event>, crash: nat): seq<Event> {
    if crash < |events| then events[..crash] else events
  }

  function Landed(docs: Documents, action: Action): seq<Event> { Cut(Intended(docs, action), action.crash) }

  function Step(docs: Documents, action: Action): Documents { ApplyAll(docs, Landed(docs, action)) }

  /** The documents after a trace of processes, one after the other. */
  function After(docs: Documents, actions: seq<Action>): Documents {
    if actions == [] then docs else Step(After(docs, actions[..|actions| - 1]), actions[|actions| - 1])
  }

  /** Every effect of a trace, in order. */
  function History(docs: Documents, actions: seq<Action>): seq<Event> {
    if actions == [] then []
    else History(docs, actions[..|actions| - 1])
         + Landed(After(docs, actions[..|actions| - 1]), actions[|actions| - 1])
  }
}
