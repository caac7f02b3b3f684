/**
 One process at work: the client that asks and asks again, the persister that writes
 the jar back, the pacer, the scan of each centre, and the two commands
 (api/client.py, api/session_store.py, api/availability.py, api/monitor.py,
 api/headless_monitor.py, cli.py).  Each method is proved to do what `Scan` and
 `Protocol` say, effect by effect, wherever the process is killed.
 */
module Process {
  import opened Common
  import opened Calendar
  import opened Snapshot
  import opened Http
  import opened Scan
  import opened Protocol
  import opened Announcements

  // ---------------------------------------------------------------------------
  // Effects as they happen
  // ---------------------------------------------------------------------------

  /** The database, what has happened so far, and how many effects the process lives for. */
  datatype Journal = Journal(docs: Documents, log: seq<Event>, fuel: nat)

  function Play(j: Journal, events: seq<Event>): Journal {
    var landed := Cut(events, j.fuel);
    Journal(ApplyAll(j.docs, landed), j.log + landed, j.fuel - |landed|)
  }

  lemma PlayAppend(j: Journal, a: seq<Event>, b: seq<Event>)
    ensures Play(Play(j, a), b) == Play(j, a + b)
  {
    var first := Cut(a, j.fuel);
    var second := Cut(b, j.fuel - |first|);
    assert Cut(a + b, j.fuel) == first + second by {
      if |a| <= j.fuel {
        assert j.fuel - |a| < |b| ==> (a + b)[..j.fuel] == a + b[..j.fuel - |a|];
      } else {
        assert (a + b)[..j.fuel] == a[..j.fuel] + [];
      }
    }
    ApplyAllAppend(j.docs, first, second);
    assert j.log + first + second == j.log + (first + second);
  }

  lemma PlayNothing(j: Journal)
    ensures Play(j, []) == j
  {
  }

  lemma PlayOne(j: Journal, event: Event)
    ensures Play(j, [event]) ==
            if j.fuel > 0 then Journal(Apply(j.docs, event), j.log + [event], j.fuel - 1) else j
  {
    assert [event][..0] == [];
    assert ApplyAll(j.docs, [event]) == Apply(ApplyAll(j.docs, []), event);
    assert j.log + [] == j.log;
  }

  /** What surrounds one process: its environment, its clock and its journal. */
  class World {
    const env: RunEnv
    const drift: nat -> nat     // how much time passes before each look at the clock
    var journal: Journal
    var sent: nat               // physical requests so far
    ghost var sentAt: seq<real> // and what the clock said at each
    var clock: real
    var ticks: nat
    var slept: real             // seconds asked of every sleep so far

    constructor (env: RunEnv, drift: nat -> nat, journal: Journal)
      ensures this.env == env && this.drift == drift && this.journal == journal && NothingSent() && slept == 0.0
    {
      this.env, this.drift, this.journal := env, drift, journal;
      sent, sentAt, clock, ticks, slept := 0, [], 0.0, 0, 0.0;
    }

    ghost predicate NothingSent()
      reads this
    {
      sent == 0 && sentAt == []
    }

    method Do(event: Event)
      modifies this`journal
      ensures journal == Play(old(journal), [event])
    {
      PlayOne(journal, event);
      if journal.fuel > 0 {
        journal := Journal(Apply(journal.docs, event), journal.log + [event], journal.fuel - 1);
      }
    }

    method Now() returns (now: real)
      modifies this`clock, this`ticks
      ensures old(clock) <= now == clock
    {
      clock := clock + drift(ticks) as real;
      ticks := ticks + 1;
      return clock;
    }

    /** Sleeping takes at least as long as asked. */
    method Sleep(seconds: real)
      modifies this`clock, this`ticks, this`slept
      ensures clock >= old(clock) && clock >= old(clock) + seconds
      ensures slept == old(slept) + seconds
    {
      clock := clock + drift(ticks) as real + if seconds > 0.0 then seconds else 0.0;
      ticks, slept := ticks + 1, slept + seconds;
    }

    method Request() returns (reply: Reply)
      modifies this`journal, this`sent, this`sentAt
      ensures reply == env.service.replies(old(sent)) && sent == old(sent) + 1
      ensures sentAt == old(sentAt) + [clock]
      ensures journal == Play(old(journal), [Requested(old(sent))])
    {
      Do(Requested(sent));
      reply := env.service.replies(sent);
      sent, sentAt := sent + 1, sentAt + [clock];
    }
  }

  // ---------------------------------------------------------------------------
  // Writing the jar back
  // ---------------------------------------------------------------------------

  /** Keeps the stored jar in step with what the service makes of it. */
  class SessionPersister {
    const world: World
    var last: Option<Digest>
    var degraded: bool
    var writes: nat

    function Memory(): Persister<Digest>
      reads this
    {
      Persister(last, degraded, writes)
    }

    constructor (world: World, last: Option<Digest>)
      ensures this.world == world && Memory() == Persister(last, false, 0)
    {
      this.world, this.last, degraded, writes := world, last, false, 0;
    }

    /** Called with the jar after every answer, failed ones included. */
    method OnResponse(jar: Jar, works: bool)
      modifies this, world`journal
      ensures Memory() == Observe(old(Memory()), jar, world.env.digest(jar), works).0
      ensures world.journal == Play(old(world.journal), Observe(old(Memory()), jar, world.env.digest(jar), works).1)
    {
      PlayNothing(world.journal);
      var digest := world.env.digest(jar);
      if Some(digest) == last {
        return;
      }
      if !works {
        degraded := true;
        return;
      }
      world.Do(SavedSession(SessionOf(jar)));
      last, degraded, writes := Some(digest), false, writes + 1;
    }
  }

  // ---------------------------------------------------------------------------
  // The client
  // ---------------------------------------------------------------------------

  /** What `n` requests leave behind: the persister's memory and the journal.  Said of every
      `m` equal to `n`, so that only proofs that count requests unfold it. */
  ghost predicate Kept(env: RunEnv, start: Persister<Digest>, origin: Journal, n: nat, memory: Persister<Digest>, journal: Journal) {
    forall m: nat :: m == n ==> memory == RequestsMade(env, start, m).0 && journal == Play(origin, RequestsMade(env, start, m).1)
  }

  lemma KeptOnceMore(env: RunEnv, start: Persister<Digest>, origin: Journal, k: nat, memory: Persister<Digest>, journal: Journal)
    requires Kept(env, start, origin, k, memory, journal)
    ensures var saved := Observe(memory, env.jars(k), env.digest(env.jars(k)), env.jarSaves(k));
            Kept(env, start, origin, k + 1, saved.0, Play(Play(journal, [Requested(k)]), saved.1))
  {
    var before := RequestsMade(env, start, k).1;
    PlayAppend(origin, before, [Requested(k)]);
    PlayAppend(origin, before + [Requested(k)], Observe(memory, env.jars(k), env.digest(env.jars(k)), env.jarSaves(k)).1);
  }

  /** The most that `n` waits can come to. */
  ghost function Patience(retry: RetryConfig, n: nat): real {
    if n == 0 then 0.0 else Patience(retry, n - 1) + LongestWait(retry)
  }

  lemma {:induction false} PatienceIs(retry: RetryConfig, n: nat)
    ensures Patience(retry, n) == n as real * LongestWait(retry)
  {
    if n > 0 {
      PatienceIs(retry, n - 1);
    }
  }

  /** The wait after request `i` of the call that began with request `k`, decided at `now`. */
  function WaitAfter(service: Service, k: nat, i: nat, now: real): real {
    WaitFor(Perform(service.replies(k + i)), i + 1, service.retry, now)
  }

  ghost function TotalWait(service: Service, k: nat, moments: seq<real>): real {
    if moments == [] then 0.0
    else TotalWait(service, k, moments[..|moments| - 1]) + WaitAfter(service, k, |moments| - 1, moments[|moments| - 1])
  }

  /** After each answer but the last, the wait it calls for was decided, and waited out before the
      next request; and nothing else was slept. */
  ghost predicate WaitsKept(service: Service, k: nat, moments: seq<real>, sentAt: seq<real>, waited: real) {
    && k + |moments| + 1 == |sentAt|
    && (forall i :: 0 <= i < |moments| ==>
          sentAt[k + i] <= moments[i] && moments[i] + WaitAfter(service, k, i, moments[i]) <= sentAt[k + i + 1])
    && waited == TotalWait(service, k, moments)
  }

  lemma WaitKeptOnceMore(
    service: Service, k: nat, moments: seq<real>, sentAt: seq<real>, waited: real, now: real, later: real)
    requires WaitsKept(service, k, moments, sentAt, waited)
    requires sentAt[|sentAt| - 1] <= now && now + WaitAfter(service, k, |moments|, now) <= later
    ensures WaitsKept(service, k, moments + [now], sentAt + [later], waited + WaitAfter(service, k, |moments|, now))
  {
    assert (moments + [now])[..|moments|] == moments;
  }

  /** So many more requests were sent, the first of them at `at`. */
  ghost predicate SentMore(before: seq<real>, after: seq<real>, at: real, n: nat) {
    before <= after && |after| == |before| + n && (n > 0 ==> after[|before|] == at)
  }

  /** Where a call stands after `attempts` requests, of which the first was request `k`. */
  ghost predicate Trying(service: Service, k: nat, attempts: nat, outcome: Outcome, waited: real) {
    && 1 <= attempts <= AttemptLimit(service.retry)
    && outcome == Perform(service.replies(k + attempts - 1))
    && Attempts(service.replies, k, service.retry) == AttemptsFrom(service.replies, k, service.retry, attempts)
    && waited <= Patience(service.retry, attempts - 1)
  }

  /** A finished call: the one that starts with request `k`, having waited no longer than it may. */
  ghost predicate Called(service: Service, k: nat, endpoint: Endpoint, call: ApiCall, waited: real) {
    && call == service.Call(k, endpoint)
    && waited <= Patience(service.retry, call.attempts - 1)
  }

  /** And having waited for exactly what its failed attempts called for. */
  ghost predicate WaitedAsAsked(service: Service, k: nat, attempts: nat, sentAt: seq<real>, waited: real) {
    exists moments :: |moments| == attempts - 1 && WaitsKept(service, k, moments, sentAt, waited)
  }

  /** All that is known of a call after `attempts` requests, the last of them at `clock`; said of
      every number that equals theirs, so that the loop does not unfold it. */
  ghost predicate Underway(
    service: Service, k: nat, attempts: nat, outcome: Outcome, moments: seq<real>, before: seq<real>,
    sentAt: seq<real>, at: real, clock: real, waited: real)
  {
    forall n | n == attempts ::
      && |before| == k && |moments| + 1 == n && sentAt != [] && sentAt[|sentAt| - 1] == clock
      && Trying(service, k, n, outcome, waited) && WaitsKept(service, k, moments, sentAt, waited)
      && SentMore(before, sentAt, at, n)
  }

  lemma UnderwayStarts(service: Service, k: nat, outcome: Outcome, before: seq<real>, clock: real)
    requires |before| == k && outcome == Perform(service.replies(k))
    ensures Underway(service, k, 1, outcome, [], before, before + [clock], clock, clock, 0.0)
  {
  }

  lemma UnderwayGoesOn(
    service: Service, k: nat, attempts: nat, outcome: Outcome, moments: seq<real>, before: seq<real>,
    sentAt: seq<real>, at: real, clock: real, waited: real, next: Outcome, now: real, later: real)
    requires Underway(service, k, attempts, outcome, moments, before, sentAt, at, clock, waited)
    requires attempts < service.retry.maxAttempts && IsRetryable(outcome)
    requires next == Perform(service.replies(k + attempts))
    requires clock <= now && now + WaitFor(outcome, attempts, service.retry, now) <= later
    ensures Underway(service, k, attempts + 1, next, moments + [now], before, sentAt + [later], at, later,
                     waited + WaitFor(outcome, attempts, service.retry, now))
  {
    assert Trying(service, k, attempts, outcome, waited);
    WaitIsBounded(outcome, attempts, service.retry, now);
    WaitKeptOnceMore(service, k, moments, sentAt, waited, now, later);
  }

  lemma UnderwayEnds(
    service: Service, k: nat, attempts: nat, outcome: Outcome, moments: seq<real>, before: seq<real>,
    sentAt: seq<real>, at: real, clock: real, waited: real, endpoint: Endpoint)
    requires Underway(service, k, attempts, outcome, moments, before, sentAt, at, clock, waited)
    requires attempts >= service.retry.maxAttempts || !IsRetryable(outcome)
    ensures Called(service, k, endpoint, ApiCall(endpoint, outcome, attempts), waited)
    ensures WaitedAsAsked(service, k, attempts, sentAt, waited) && SentMore(before, sentAt, at, attempts)
  {
    assert Trying(service, k, attempts, outcome, waited);
  }

  class HscApiClient {
    const world: World
    const onResponse: SessionPersister
    ghost const start: Persister<Digest>     // the persister's memory, and
    ghost const origin: Journal      // the journal, when the client was made

    constructor (world: World, onResponse: SessionPersister)
      requires onResponse.world == world && world.NothingSent()
      ensures this.world == world && this.onResponse == onResponse
      ensures start == onResponse.Memory() && origin == world.journal && Valid()
    {
      this.world, this.onResponse := world, onResponse;
      start, origin := onResponse.Memory(), world.journal;
      new;
      PlayNothing(world.journal);
    }

    /** Every request so far was followed by what the persister makes of its jar. */
    ghost predicate Valid()
      reads this, world, onResponse
    {
      && onResponse.world == world && |world.sentAt| == world.sent
      && Kept(world.env, start, origin, world.sent, onResponse.Memory(), world.journal)
    }

    /** One request, and one look at the jar. */
    method Ask() returns (outcome: Outcome)
      requires Valid()
      modifies world, onResponse
      ensures Valid() && world.sent == old(world.sent) + 1
      ensures outcome == Perform(world.env.service.replies(old(world.sent)))
      ensures world.clock == old(world.clock) && world.slept == old(world.slept)
      ensures world.sentAt == old(world.sentAt) + [world.clock]
    {
      var k := world.sent;
      KeptOnceMore(world.env, start, origin, k, onResponse.Memory(), world.journal);
      var reply := world.Request();
      onResponse.OnResponse(world.env.jars(k), world.env.jarSaves(k));
      return Perform(reply);
    }

    /** Wait as long as the last answer calls for, and ask once more. */
    method AskAgain(outcome: Outcome, attempts: nat) returns (next: Outcome, ghost now: real)
      requires Valid()
      modifies world, onResponse
      ensures Valid() && world.sent == old(world.sent) + 1
      ensures next == Perform(world.env.service.replies(old(world.sent)))
      ensures world.slept == old(world.slept) + WaitFor(outcome, attempts, world.env.service.retry, now)
      ensures old(world.clock) <= now && now + WaitFor(outcome, attempts, world.env.service.retry, now) <= world.clock
      ensures world.clock >= old(world.clock) && world.sentAt == old(world.sentAt) + [world.clock]
    {
      var moment := world.Now();
      world.Sleep(WaitFor(outcome, attempts, world.env.service.retry, moment));
      next := Ask();
      now := moment;
    }

    /** One logical call, retries included: what is slept between its attempts is what the answers
        called for, Retry-After included. */
    method Get(endpoint: Endpoint) returns (call: ApiCall)
      requires Valid()
      modifies world, onResponse
      ensures Valid() && world.sent == old(world.sent) + call.attempts && world.clock >= old(world.clock)
      ensures Called(world.env.service, old(world.sent), endpoint, call, world.slept - old(world.slept))
      ensures WaitedAsAsked(world.env.service, old(world.sent), call.attempts, world.sentAt, world.slept - old(world.slept))
      ensures SentMore(old(world.sentAt), world.sentAt, old(world.clock), call.attempts)
    {
      ghost var service, k, sent := world.env.service, world.sent, world.sentAt;
      ghost var start, slept, moments := world.clock, world.slept, [];
      var retry := world.env.service.retry;
      var attempts := 1;
      var outcome := Ask();
      UnderwayStarts(service, k, outcome, sent, start);
      while attempts < retry.maxAttempts && IsRetryable(outcome)
        invariant Valid() && world.sent == k + attempts && world.clock >= start && attempts >= 1
        invariant Underway(service, k, attempts, outcome, moments, sent, world.sentAt, start, world.clock, world.slept - slept)
        decreases retry.maxAttempts - attempts
      {
        ghost var now;
        ghost var tried, sentAt, clock, waited := outcome, world.sentAt, world.clock, world.slept - slept;
        outcome, now := AskAgain(outcome, attempts);
        UnderwayGoesOn(service, k, attempts, tried, moments, sent, sentAt, start, clock, waited, outcome, now, world.clock);
        attempts, moments := attempts + 1, moments + [now];
      }
      UnderwayEnds(service, k, attempts, outcome, moments, sent, world.sentAt, start, world.clock, world.slept - slept, endpoint);
      return ApiCall(endpoint, outcome, attempts);
    }
  }

  // ---------------------------------------------------------------------------
  // The pacer
  // ---------------------------------------------------------------------------

  /** Each mark at least `interval` after the one before. */
  ghost predicate Spaced(marks: seq<real>, interval: real) {
    forall i :: 0 <= i < |marks| - 1 ==> marks[i + 1] - marks[i] >= interval
  }

  /** Keeps slots calls apart. */
  class Pacer {
    const world: World
    const interval: real
    var last: Option<real>
    ghost var marks: seq<real>     // every mark so far

    constructor (world: World, interval: real)
      ensures this.world == world && marks == [] && Valid()
      ensures this.interval == Max(interval, 0.0)
    {
      this.world, this.interval := world, Max(interval, 0.0);
      last, marks := None, [];
    }

    ghost predicate Valid()
      reads this, world
    {
      && interval >= 0.0 && Spaced(marks, interval)
      && last == (if marks == [] then None else Some(marks[|marks| - 1]))
      && (last.Some? ==> last.value <= world.clock)
    }

    /** The next mark may be made. */
    ghost predicate Rested()
      reads this, world
    {
      last.Some? ==> world.clock >= last.value + interval
    }

    /** Sleeps what is left of the interval since the last mark, if there was one. */
    method Wait() returns (waited: real)
      requires Valid()
      modifies world`clock, world`ticks, world`slept
      ensures Valid() && Rested() && world.clock >= old(world.clock)
      ensures world.slept == old(world.slept) + waited && 0.0 <= waited <= interval
      ensures last.None? ==> waited == 0.0
      ensures last.Some? ==> waited <= Max(interval - (old(world.clock) - last.value), 0.0)
    {
      if interval <= 0.0 || last.None? {
        return 0.0;
      }
      var now := world.Now();
      var remaining := interval - (now - last.value);
      if remaining <= 0.0 {
        return 0.0;
      }
      world.Sleep(remaining);
      return remaining;
    }

    method Mark()
      requires Valid() && Rested()
      modifies this, world`clock, world`ticks
      ensures Valid() && |marks| == |old(marks)| + 1 && marks[..|old(marks)|] == old(marks)
      ensures marks[|old(marks)|] == world.clock >= old(world.clock)
    {
      var now := world.Now();
      last := Some(now);
      marks := marks + [now];
    }
  }

  // ---------------------------------------------------------------------------
  // One centre
  // ---------------------------------------------------------------------------

  /** What has been read of a department so far, and all that is still to be read.  Said of every
      index that equals the given one, so that only proofs that look into it unfold it. */
  ghost predicate Reading(
    service: Service, k: nat, department: int, wanted: seq<Date>,
    i: nat, days: seq<DayRead>, calls: seq<ApiCall>, next: nat)
  {
    && i <= |wanted|
    && forall j | j == i ::
         var rest := ReadDates(service, next, department, wanted[j..]);
         ReadDates(service, k, department, wanted) == DatesRead(days + rest.days, calls + rest.calls, rest.next)
  }

  lemma ReadingStarts(service: Service, k: nat, department: int, wanted: seq<Date>)
    ensures Reading(service, k, department, wanted, 0, [], [], k)
  {
  }

  lemma ReadingGoesOn(
    service: Service, k: nat, department: int, wanted: seq<Date>,
    i: nat, days: seq<DayRead>, calls: seq<ApiCall>, next: nat, call: ApiCall)
    requires Reading(service, k, department, wanted, i, days, calls, next) && i < |wanted|
    requires call == service.Call(next, SlotsCall(department, wanted[i])) && !EndsScan(call)
    ensures Reading(service, k, department, wanted, i + 1,
                    days + [DayOf(call, wanted[i])], calls + [call], next + call.attempts)
  {
    var rest := ReadDates(service, next + call.attempts, department, wanted[i + 1..]);
    assert wanted[i..] == [wanted[i]] + wanted[i + 1..];
    assert ReadDates(service, next, department, wanted[i..]) == FirstDate(call, wanted[i], rest);
    assert days + ([DayOf(call, wanted[i])] + rest.days) == days + [DayOf(call, wanted[i])] + rest.days;
    assert calls + ([call] + rest.calls) == calls + [call] + rest.calls;
  }

  lemma ReadingStops(
    service: Service, k: nat, department: int, wanted: seq<Date>,
    i: nat, days: seq<DayRead>, calls: seq<ApiCall>, next: nat, call: ApiCall)
    requires Reading(service, k, department, wanted, i, days, calls, next) && i < |wanted|
    requires call == service.Call(next, SlotsCall(department, wanted[i])) && EndsScan(call)
    ensures ReadDates(service, k, department, wanted)
            == DatesRead(days + [DayOf(call, wanted[i])], calls + [call], next + call.attempts)
  {
    assert wanted[i..] == [wanted[i]] + wanted[i + 1..];
  }

  lemma ReadingEnds(
    service: Service, k: nat, department: int, wanted: seq<Date>, days: seq<DayRead>, calls: seq<ApiCall>, next: nat)
    requires Reading(service, k, department, wanted, |wanted|, days, calls, next)
    ensures ReadDates(service, k, department, wanted) == DatesRead(days, calls, next)
  {
    assert wanted[|wanted|..] == [];
  }

  predicate AsksForSlots(call: ApiCall) { call.endpoint.SlotsCall? }

  function SlotsCalls(calls: seq<ApiCall>): nat { |Filter(calls, AsksForSlots)| }

  /** The first physical request of each slots call, when the first call starts with request `k`. */
  function FirstRequests(calls: seq<ApiCall>, k: nat): seq<nat> {
    if calls == [] then []
    else (if AsksForSlots(calls[0]) then [k] else []) + FirstRequests(calls[1..], k + calls[0].attempts)
  }

  lemma {:induction false} RequestsAppend(a: seq<ApiCall>, b: seq<ApiCall>)
    ensures Requests(a + b) == Requests(a) + Requests(b)
  {
    if a == [] {
      assert a + b == b;
    } else {
      assert (a + b)[1..] == a[1..] + b;
      RequestsAppend(a[1..], b);
    }
  }

  lemma {:induction false} FirstRequestsAppend(a: seq<ApiCall>, b: seq<ApiCall>, k: nat)
    ensures FirstRequests(a + b, k) == FirstRequests(a, k) + FirstRequests(b, k + Requests(a))
    decreases a
  {
    if a == [] {
      assert a + b == b;
    } else {
      var next := k + a[0].attempts;
      var first := if AsksForSlots(a[0]) then [k] else [];
      assert (a + b)[1..] == a[1..] + b && (a + b)[0] == a[0];
      FirstRequestsAppend(a[1..], b, next);
      assert k + Requests(a) == next + Requests(a[1..]);
      assert first + (FirstRequests(a[1..], next) + FirstRequests(b, k + Requests(a)))
             == first + FirstRequests(a[1..], next) + FirstRequests(b, k + Requests(a));
    }
  }

  lemma {:induction false} OneForEachSlotsCall(calls: seq<ApiCall>, k: nat)
    ensures |FirstRequests(calls, k)| == SlotsCalls(calls)
    decreases calls
  {
    if calls != [] {
      OneForEachSlotsCall(calls[1..], k + calls[0].attempts);
    }
  }

  /** The pacer was marked once for each of these requests, at the moment it was sent. */
  ghost predicate MarkedFor(before: seq<real>, after: seq<real>, sentAt: seq<real>, firsts: seq<nat>) {
    && before <= after && |after| == |before| + |firsts|
    && forall i :: 0 <= i < |firsts| ==> firsts[i] < |sentAt| && sentAt[firsts[i]] == after[|before| + i]
  }

  /** These calls were made, and the pacer was marked for every slots call among them.  Said of
      every list that equals the given one, so that only proofs that look into it unfold it. */
  ghost predicate InStep(
    marked: seq<real>, sent: seq<real>, marks: seq<real>, sentAt: seq<real>, calls: seq<ApiCall>)
  {
    forall made | made == calls ::
      && sent <= sentAt && |sentAt| == |sent| + Requests(made)
      && MarkedFor(marked, marks, sentAt, FirstRequests(made, |sent|))
  }

  lemma NothingYet(marks: seq<real>, sentAt: seq<real>)
    ensures InStep(marks, sentAt, marks, sentAt, [])
  {
  }

  lemma InStepAgain(
    marked: seq<real>, sent: seq<real>, marks: seq<real>, sentAt: seq<real>, calls: seq<ApiCall>,
    marks': seq<real>, sentAt': seq<real>, more: seq<ApiCall>)
    requires InStep(marked, sent, marks, sentAt, calls) && InStep(marks, sentAt, marks', sentAt', more)
    ensures InStep(marked, sent, marks', sentAt', calls + more)
  {
    assert |sentAt| == |sent| + Requests(calls) && |sentAt'| == |sentAt| + Requests(more);
    RequestsAppend(calls, more);
    FirstRequestsAppend(calls, more, |sent|);
  }

  lemma CallInStep(marks: seq<real>, sent: seq<real>, sentAt: seq<real>, at: real, call: ApiCall)
    requires SentMore(sent, sentAt, at, call.attempts) && call.attempts > 0
    ensures !AsksForSlots(call) ==> InStep(marks, sent, marks, sentAt, [call])
    ensures AsksForSlots(call) ==> InStep(marks, sent, marks + [at], sentAt, [call])
  {
    assert [call][1..] == [];
  }

  /** No two of these requests are closer than the interval. */
  ghost predicate Paced(sentAt: seq<real>, firsts: seq<nat>, interval: real) {
    && (forall i :: 0 <= i < |firsts| ==> firsts[i] < |sentAt|)
    && (forall i, j :: 0 <= i < j < |firsts| ==> sentAt[firsts[j]] - sentAt[firsts[i]] >= interval)
  }

  lemma {:induction false} SpacedThroughout(marks: seq<real>, interval: real, i: nat, j: nat)
    requires Spaced(marks, interval) && interval >= 0.0 && i < j < |marks|
    ensures marks[j] - marks[i] >= interval
  {
    assert marks[j - 1 + 1] - marks[j - 1] >= interval;
    if i < j - 1 {
      SpacedThroughout(marks, interval, i, j - 1);
    }
  }

  lemma MarkedIsPaced(marks: seq<real>, sentAt: seq<real>, firsts: seq<nat>, interval: real)
    requires MarkedFor([], marks, sentAt, firsts) && Spaced(marks, interval) && interval >= 0.0
    ensures Paced(sentAt, firsts, interval)
  {
    forall i, j | 0 <= i < j < |firsts| ensures sentAt[firsts[j]] - sentAt[firsts[i]] >= interval {
      SpacedThroughout(marks, interval, i, j);
    }
  }

  lemma MarksPace(sent: seq<real>, marks: seq<real>, sentAt: seq<real>, calls: seq<ApiCall>, interval: real)
    requires InStep([], sent, marks, sentAt, calls) && Spaced(marks, interval) && interval >= 0.0
    ensures Paced(sentAt, FirstRequests(calls, |sent|), interval) && |marks| == SlotsCalls(calls)
  {
    OneForEachSlotsCall(calls, |sent|);
    MarkedIsPaced(marks, sentAt, FirstRequests(calls, |sent|), interval);
  }

  /** The pacer and the client share one world, and both are in order. */
  ghost predicate Equipped(client: HscApiClient, pacer: Pacer)
    reads client, client.world, client.onResponse, pacer
  {
    client.world == pacer.world && client.Valid() && pacer.Valid()
  }

  /** A call that waits for nobody's turn. */
  method AskAtOnce(client: HscApiClient, pacer: Pacer, endpoint: Endpoint) returns (call: ApiCall)
    requires Equipped(client, pacer) && !endpoint.SlotsCall?
    modifies client.world, client.onResponse
    ensures Equipped(client, pacer)
    ensures call == client.world.env.service.Call(old(client.world.sent), endpoint)
    ensures client.world.sent == old(client.world.sent) + call.attempts
    ensures InStep(pacer.marks, old(client.world.sentAt), pacer.marks, client.world.sentAt, [call])
  {
    ghost var now := client.world.clock;
    call := client.Get(endpoint);
    CallInStep(pacer.marks, old(client.world.sentAt), client.world.sentAt, now, call);
  }

  /** One date: wait for the turn, mark it, ask. */
  method AskForDate(client: HscApiClient, pacer: Pacer, department: int, date: Date) returns (call: ApiCall)
    requires Equipped(client, pacer)
    modifies client.world, client.onResponse, pacer
    ensures Equipped(client, pacer)
    ensures call == client.world.env.service.Call(old(client.world.sent), SlotsCall(department, date))
    ensures client.world.sent == old(client.world.sent) + call.attempts
    ensures InStep(old(pacer.marks), old(client.world.sentAt), pacer.marks, client.world.sentAt, [call])
  {
    var waited := pacer.Wait();
    pacer.Mark();
    ghost var now := client.world.clock;
    assert pacer.marks == old(pacer.marks) + [now];
    call := client.Get(SlotsCall(department, date));
    CallInStep(old(pacer.marks), old(client.world.sentAt), client.world.sentAt, now, call);
  }

  /** Strictly one request at a time, and never the same date twice. */
  method ScanDates(client: HscApiClient, pacer: Pacer, department: int, wanted: seq<Date>) returns (read: DatesRead)
    requires Equipped(client, pacer)
    modifies client.world, client.onResponse, pacer
    ensures Equipped(client, pacer)
    ensures read == ReadDates(client.world.env.service, old(client.world.sent), department, wanted)
    ensures read.next == client.world.sent
    ensures InStep(old(pacer.marks), old(client.world.sentAt), pacer.marks, client.world.sentAt, read.calls)
  {
    ghost var service, k := client.world.env.service, client.world.sent;
    ghost var marked, sent := pacer.marks, client.world.sentAt;
    var days, calls := [], [];
    ReadingStarts(service, k, department, wanted);
    NothingYet(marked, sent);
    for i := 0 to |wanted|
      invariant Equipped(client, pacer)
      invariant Reading(service, k, department, wanted, i, days, calls, client.world.sent)
      invariant InStep(marked, sent, pacer.marks, client.world.sentAt, calls)
    {
      ghost var next, marks, sentAt := client.world.sent, pacer.marks, client.world.sentAt;
      var call := AskForDate(client, pacer, department, wanted[i]);
      InStepAgain(marked, sent, marks, sentAt, calls, pacer.marks, client.world.sentAt, [call]);
      if EndsScan(call) {
        ReadingStops(service, k, department, wanted, i, days, calls, next, call);
        return DatesRead(days + [DayOf(call, wanted[i])], calls + [call], client.world.sent);
      }
      ReadingGoesOn(service, k, department, wanted, i, days, calls, next, call);
      days, calls := days + [DayOf(call, wanted[i])], calls + [call];
    }
    ReadingEnds(service, k, department, wanted, days, calls, client.world.sent);
    return DatesRead(days, calls, client.world.sent);
  }

  lemma DepartmentCallsAre(service: Service, k: nat, department: Department, days: ApiCall, next: nat, maxDates: int)
    requires days == service.Call(k, DaysCall(department.id)) && next == k + days.attempts
    ensures DepartmentCalls(service, k, department, maxDates)
            == WithDays(days, ReadOffered(service, next, department, DatesOffered(days), maxDates))
  {
  }

  /** The days call, and then every date it offered. */
  method ScanDepartment(client: HscApiClient, pacer: Pacer, department: Department, maxDates: int)
    returns (days: ApiCall, read: DatesRead)
    requires Equipped(client, pacer)
    modifies client.world, client.onResponse, pacer
    ensures Equipped(client, pacer)
    ensures days == client.world.env.service.Call(old(client.world.sent), DaysCall(department.id))
    ensures read == DepartmentCalls(client.world.env.service, old(client.world.sent), department, maxDates)
    ensures read.next == client.world.sent
    ensures InStep(old(pacer.marks), old(client.world.sentAt), pacer.marks, client.world.sentAt, read.calls)
  {
    ghost var service, k, marks, sent := client.world.env.service, client.world.sent, pacer.marks, client.world.sentAt;
    days := AskAtOnce(client, pacer, DaysCall(department.id));
    DepartmentCallsAre(service, k, department, days, client.world.sent, maxDates);
    ghost var sentAt := client.world.sentAt;
    var offered := DatesOffered(days);
    if offered.None? {
      read := WithDays(days, DatesRead([], [], client.world.sent));
      assert read.calls == [days];
      return;
    }
    read := ScanDates(client, pacer, department.id, Wanted(offered.value, maxDates));
    InStepAgain(marks, sent, marks, sentAt, [days], pacer.marks, client.world.sentAt, read.calls);
    read := WithDays(days, read);
  }

  method ReadOneCentre(client: HscApiClient, pacer: Pacer, departments: Payload, centre: string, maxDates: int)
    returns (read: CentreRead)
    requires Equipped(client, pacer)
    modifies client.world, client.onResponse, pacer
    ensures Equipped(client, pacer)
    ensures read == ReadCentre(client.world.env.service, old(client.world.sent), departments, centre, maxDates)
    ensures read.next == client.world.sent
    ensures InStep(old(pacer.marks), old(client.world.sentAt), pacer.marks, client.world.sentAt, read.calls)
  {
    var department := ResolveIn(departments, centre);
    if department.None? {
      NothingYet(pacer.marks, client.world.sentAt);
      read := CentreRead(Unread(centre, {}), [], client.world.sent);
      assert read.calls == [];
      return;
    }
    var days, scan := ScanDepartment(client, pacer, department.value, maxDates);
    return CentreRead(DepartmentReading(centre, days, DatesOffered(days), scan), scan.calls, scan.next);
  }

  // ---------------------------------------------------------------------------
  // Every centre
  // ---------------------------------------------------------------------------

  ghost predicate Passing(
    service: Service, k: nat, departments: Payload, centres: seq<string>, maxDates: int,
    i: nat, pass: Pass)
  {
    && i <= |centres|
    && forall j | j == i ::
         var rest := ReadEach(service, pass.next, departments, centres[j..], maxDates);
         ReadEach(service, k, departments, centres, maxDates)
         == Pass(pass.readings + rest.readings, pass.calls + rest.calls, rest.next)
  }

  lemma PassingGoesOn(
    service: Service, k: nat, departments: Payload, centres: seq<string>, maxDates: int,
    i: nat, pass: Pass, read: CentreRead)
    requires Passing(service, k, departments, centres, maxDates, i, pass) && i < |centres|
    requires read == ReadCentre(service, pass.next, departments, centres[i], maxDates)
    ensures Passing(service, k, departments, centres, maxDates, i + 1,
                    Pass(pass.readings + [read.reading], pass.calls + read.calls, read.next))
  {
    assert centres[i..][1..] == centres[i + 1..] && centres[i..][0] == centres[i];
    var rest := ReadEach(service, read.next, departments, centres[i + 1..], maxDates);
    assert centres[i..] == [centres[i]] + centres[i + 1..];
    assert ReadEach(service, pass.next, departments, centres[i..], maxDates)
           == Pass([read.reading] + rest.readings, read.calls + rest.calls, rest.next);
    assert pass.readings + [read.reading] + rest.readings == pass.readings + ([read.reading] + rest.readings);
    assert pass.calls + read.calls + rest.calls == pass.calls + (read.calls + rest.calls);
  }

  lemma PassingEnds(service: Service, k: nat, departments: Payload, centres: seq<string>, maxDates: int, pass: Pass)
    requires Passing(service, k, departments, centres, maxDates, |centres|, pass)
    ensures ReadEach(service, k, departments, centres, maxDates) == pass
  {
    assert centres[|centres|..] == [];
    assert pass.readings + [] == pass.readings && pass.calls + [] == pass.calls;
  }

  /** Every centre, resolved from one departments answer. */
  method ReadResolvedCentres(
    client: HscApiClient, pacer: Pacer, departments: ApiCall, centres: seq<string>, maxDates: int)
    returns (pass: Pass)
    requires Equipped(client, pacer)
    modifies client.world, client.onResponse, pacer
    ensures Equipped(client, pacer)
    ensures pass == ReadResolved(client.world.env.service, old(client.world.sent), departments, centres, maxDates)
    ensures pass.next == client.world.sent
    ensures InStep(old(pacer.marks), old(client.world.sentAt), pacer.marks, client.world.sentAt, pass.calls)
  {
    ghost var marked, sent := pacer.marks, client.world.sentAt;
    NothingYet(marked, sent);
    if !departments.Ok() {
      return Pass(NothingRead(centres, departments.outcome.kind), [], client.world.sent);
    }
    ghost var service, k, payload := client.world.env.service, client.world.sent, departments.outcome.payload;
    pass := Pass([], [], client.world.sent);
    for i := 0 to |centres|
      invariant Equipped(client, pacer) && pass.next == client.world.sent
      invariant Passing(service, k, payload, centres, maxDates, i, pass)
      invariant InStep(marked, sent, pacer.marks, client.world.sentAt, pass.calls)
    {
      ghost var marks, sentAt := pacer.marks, client.world.sentAt;
      var read := ReadOneCentre(client, pacer, departments.outcome.payload, centres[i], maxDates);
      PassingGoesOn(service, k, payload, centres, maxDates, i, pass, read);
      InStepAgain(marked, sent, marks, sentAt, pass.calls, pacer.marks, client.world.sentAt, read.calls);
      pass := Pass(pass.readings + [read.reading], pass.calls + read.calls, read.next);
    }
    PassingEnds(service, k, payload, centres, maxDates, pass);
  }

  lemma WholePass(service: Service, k: nat, centres: seq<string>, maxDates: int, departments: ApiCall, rest: Pass)
    requires departments == service.Call(k, DepartmentsCall)
    requires rest == ReadResolved(service, k + departments.attempts, departments, centres, maxDates)
    ensures ReadCentres(service, k, centres, maxDates) == WithDepartments(departments, rest)
  {
  }

  /** Departments once, then every centre from that one answer. */
  method ReadAll(client: HscApiClient, pacer: Pacer, centres: seq<string>, maxDates: int) returns (pass: Pass)
    requires Equipped(client, pacer)
    modifies client.world, client.onResponse, pacer
    ensures Equipped(client, pacer)
    ensures pass == ReadCentres(client.world.env.service, old(client.world.sent), centres, maxDates)
    ensures pass.next == client.world.sent
    ensures InStep(old(pacer.marks), old(client.world.sentAt), pacer.marks, client.world.sentAt, pass.calls)
  {
    ghost var service, k, marks, sent := client.world.env.service, client.world.sent, pacer.marks, client.world.sentAt;
    var departments := AskAtOnce(client, pacer, DepartmentsCall);
    ghost var sentAt := client.world.sentAt;
    pass := ReadResolvedCentres(client, pacer, departments, centres, maxDates);
    WholePass(service, k, centres, maxDates, departments, pass);
    InStepAgain(marks, sent, marks, sentAt, [departments], pacer.marks, client.world.sentAt, pass.calls);
    pass := WithDepartments(departments, pass);
  }

  /**
   One pass with a pacer of its own.  The pacer is marked once for every slots call, at the
   moment its first request is sent; so the first requests of two slots calls are never closer
   than its interval, whichever centres they belong to and however long anything else took.
   */
  method ReadPass(client: HscApiClient, pacer: Pacer, centres: seq<string>, maxDates: int) returns (pass: Pass)
    requires Equipped(client, pacer) && pacer.marks == []
    modifies client.world, client.onResponse, pacer
    ensures Equipped(client, pacer)
    ensures pass == ReadCentres(client.world.env.service, old(client.world.sent), centres, maxDates)
    ensures pass.next == client.world.sent
    ensures |pacer.marks| == SlotsCalls(pass.calls) && Spaced(pacer.marks, pacer.interval)
    ensures Paced(client.world.sentAt, FirstRequests(pass.calls, old(client.world.sent)), pacer.interval)
  {
    ghost var sent := client.world.sentAt;
    pass := ReadAll(client, pacer, centres, maxDates);
    MarksPace(sent, pacer.marks, client.world.sentAt, pass.calls, pacer.interval);
  }

  // ---------------------------------------------------------------------------
  // The headless scan
  // ---------------------------------------------------------------------------

  /** Nothing but a snapshot write changes what a later load of the snapshot sees. */
  lemma BookkeepingKeepsSnapshot(j: Journal, events: seq<Event>)
    requires AllBookkeeping(events)
    ensures Play(j, events).docs.snapshot == j.docs.snapshot
  {
    CutKeeps(events, j.fuel);
    OthersKeepSnapshot(j.docs, Cut(events, j.fuel));
  }

  lemma LoadingChangesNothing(j: Journal)
    ensures Play(j, [LoadedSession]).docs == j.docs
  {
    PlayOne(j, LoadedSession);
  }

  /** Write the new state, if the store can be reached. */
  method Record(world: World, previous: Option<MonitorState>, status: Status, retryAfterAt: Option<real>)
    returns (transition: Option<Transition>)
    modifies world`journal
    ensures (transition, world.journal) ==
            var (recorded, events) := Recorded(previous, status, retryAfterAt, world.env.scanTime, world.env.stateWritable);
            (recorded, Play(old(world.journal), events))
  {
    if !world.env.stateWritable {
      PlayNothing(world.journal);
      return None;
    }
    world.Do(SavedState(TransitionTo(previous, status, retryAfterAt, world.env.scanTime)));
    return Some(Transition(StatusIn(previous), status));
  }

  /** Diff against the stored snapshot, replace it, and only then speak. */
  method CompareAndSave(world: World, readings: seq<CentreReading>, event: Option<Transition>) returns (scan: HeadlessScan)
    modifies world`journal
    ensures var compared := Compare(world.env, old(world.journal.docs.snapshot), readings, event);
            scan == compared.scan && world.journal == Play(old(world.journal), compared.events)
  {
    var current := SnapshotRead(readings);
    if !world.env.snapshotReadable {
      PlayNothing(world.journal);
      return HeadlessScan(ExitPersistence, event, None);
    }
    var previous := world.journal.docs.snapshot;
    var difference := DiffSnapshots(previous, current, world.env.centres);
    if !world.env.snapshotWritable {
      PlayNothing(world.journal);
      return HeadlessScan(ExitPersistence, event, None);
    }
    world.Do(SavedSnapshot(current));
    if difference.Changed() {
      PlayAppend(old(world.journal), [SavedSnapshot(current)], [Printed(difference)]);
      world.Do(Printed(difference));
    }
    return HeadlessScan(ExitOk, event, Some(difference));
  }

  /** Everything from a usable session on. */
  method ScanSession(world: World, session: PersistedSession, slotInterval: real) returns (scan: HeadlessScan)
    requires world.NothingSent()
    modifies world
    ensures var run := ScanWith(old(world.journal.docs), world.env, session);
            scan == run.scan && world.journal == Play(old(world.journal), run.events)
    ensures Paced(world.sentAt, FirstRequests(PassOf(world.env).calls, 0), Max(slotInterval, 0.0))
  {
    var env, state := world.env, world.journal.docs.state;
    var persister := new SessionPersister(world, Some(env.digest(session.jar)));
    var client := new HscApiClient(world, persister);
    var pacer := new Pacer(world, slotInterval);
    var pass := ReadPass(client, pacer, env.centres, env.maxDates);

    ghost var j, requests := old(world.journal), RequestsMade(env, Persister(Some(env.digest(session.jar)), false, 0), pass.next).1;
    assert world.journal == Play(j, requests);
    var status := StatusOf(pass.readings);
    var retryAfterAt := RetryAfterAt(status, env.service.retry, env.scanTime);
    ghost var recorded := Recorded(state, status, retryAfterAt, env.scanTime, env.stateWritable);
    var event := Record(world, state, status, retryAfterAt);
    PlayAppend(j, requests, recorded.1);
    if status != Ready {
      return HeadlessScan(ExitFor(status), event, None);
    }
    RequestsAreBookkeeping(env, Persister(Some(env.digest(session.jar)), false, 0), pass.next);
    BookkeepingKeepsSnapshot(j, requests + recorded.1);
    scan := CompareAndSave(world, pass.readings, event);
    PlayAppend(j, requests + recorded.1, Compare(env, j.docs.snapshot, pass.readings, event).events);
  }

  /** The gate, one read pass, the records. */
  method RunHeadlessScan(world: World, slotInterval: real) returns (scan: HeadlessScan)
    requires world.NothingSent()
    modifies world
    ensures var run := ScanRun(old(world.journal.docs), world.env);
            scan == run.scan && world.journal == Play(old(world.journal), run.events)
    ensures world.NothingSent() || Paced(world.sentAt, FirstRequests(PassOf(world.env).calls, 0), Max(slotInterval, 0.0))
  {
    var env, j := world.env, world.journal;
    PlayNothing(j);
    if !env.stateReadable {
      return HeadlessScan(ExitPersistence, None, None);
    }
    var blocked := Blocked(j.docs.state, env.gateTime);
    if blocked.Some? {
      return blocked.value;
    }
    LoadingChangesNothing(j);
    world.Do(LoadedSession);
    if !env.sessionReadable {
      return HeadlessScan(ExitPersistence, None, None);
    }
    var stored := world.journal.docs.session;
    if stored.None? || stored.value.Expired(env.sessionTime) {
      PlayAppend(j, [LoadedSession], Recorded(j.docs.state, AuthRequired, None, env.scanTime, env.stateWritable).1);
      var event := Record(world, j.docs.state, AuthRequired, None);
      return HeadlessScan(ExitAuthRequired, event, None);
    }
    PlayAppend(j, [LoadedSession], ScanWith(j.docs, env, stored.value).events);
    scan := ScanSession(world, stored.value, slotInterval);
  }
}
