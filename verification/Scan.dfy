/**
 One read pass over every monitored centre: departments once, and then, centre by centre,
 its days and the slots of each of them (api/availability.py scan_department,
 api/monitor.py read_centres), and what the pass means (api/headless_monitor.py
 classify).  Everything is a function of the answers the service gives.
 */
module Scan {
  import opened Common
  import opened Calendar
  import opened Dicts
  import opened Sorting
  import opened CentreNames
  import opened Http

  /** The service as one process meets it: its answers in order, and the retry policy. */
  datatype Service = Service(replies: Replies, retry: RetryConfig) {
    function Call(k: nat, endpoint: Endpoint): ApiCall { CallAt(replies, k, retry, endpoint) }
  }

  const STOP_KINDS := {RateLimited, Unauthorized, Forbidden, Redirect, Timeout, NetworkError}

  // ---------------------------------------------------------------------------
  // One centre
  // ---------------------------------------------------------------------------

  /** One date; `None` when it could not be read. */
  datatype DayRead = DayRead(date: Date, slots: Option<seq<TimeSlot>>)

  datatype DatesRead = DatesRead(days: seq<DayRead>, calls: seq<ApiCall>, next: nat)

  predicate DateLeq(a: Date, b: Date) { Ordinal(a) <= Ordinal(b) }

  /** Every date the service listed, once each and in order. */
  function ParseDays(listed: seq<Date>): seq<Date> { Sort(Distinct(listed), DateLeq) }

  /** A refusal, a broken connection or an unknown schema: the dates that follow are not asked for. */
  predicate EndsScan(call: ApiCall) {
    if call.Ok() then call.outcome.payload.slots.None? else call.outcome.kind in STOP_KINDS
  }

  function DayOf(call: ApiCall, date: Date): DayRead {
    DayRead(date, if call.Ok() then call.outcome.payload.slots else None)
  }

  /** One date read, and then the rest. */
  function FirstDate(call: ApiCall, date: Date, rest: DatesRead): DatesRead {
    DatesRead([DayOf(call, date)] + rest.days, [call] + rest.calls, rest.next)
  }

  /** Asks for the slots of one date after another, until a failure ends the scan. */
  function ReadDates(service: Service, k: nat, department: int, wanted: seq<Date>): DatesRead
    decreases wanted
  {
    if wanted == [] then DatesRead([], [], k)
    else
      var call := service.Call(k, SlotsCall(department, wanted[0]));
      FirstDate(call, wanted[0],
                if EndsScan(call) then DatesRead([], [], k + call.attempts)
                else ReadDates(service, k + call.attempts, department, wanted[1..]))
  }

  /** Free times by date and start; the end is metadata. */
  type CentreState = Dict<(Date, Clock), Option<Clock>>

  function TimesOf(date: Date, slots: seq<TimeSlot>): seq<((Date, Clock), Option<Clock>)> {
    Map(slots, (s: TimeSlot) => ((date, s.start), s.end))
  }

  function TimesRead(days: seq<DayRead>): seq<((Date, Clock), Option<Clock>)> {
    if days == [] then [] else TimesOf(days[0].date, days[0].slots.GetOr([])) + TimesRead(days[1..])
  }

  function StateOf(days: seq<DayRead>): CentreState { FromPairs(TimesRead(days)) }

  /** The result of a pass for one centre; its state is empty unless it is complete. */
  datatype CentreReading = CentreReading(
    centre: string,
    complete: bool,
    state: CentreState,
    needsAuthRecovery: bool,
    kinds: set<Kind>)

  function Unread(centre: string, kinds: set<Kind>): CentreReading {
    CentreReading(centre, false, [], Forbidden in kinds, kinds)
  }

  /** The department that matches the number, if just one does. */
  function Resolve(departments: seq<Department>, centre: string): Option<Department> {
    var matches := Filter(departments, (d: Department) => Identifies(d.name, centre));
    if |matches| == 1 then Some(matches[0]) else None
  }

  function ResolveIn(payload: Payload, centre: string): Option<Department> {
    if payload.departments.None? then None else Resolve(payload.departments.value, centre)
  }

  function KindsOf(calls: seq<ApiCall>): set<Kind> { set c <- calls :: c.outcome.kind }

  predicate AllRead(days: seq<DayRead>) { forall d <- days :: d.slots.Some? }

  function Wanted(dates: seq<Date>, maxDates: int): seq<Date> {
    if maxDates <= 0 || |dates| <= maxDates then dates else dates[..maxDates]
  }

  datatype CentreRead = CentreRead(reading: CentreReading, calls: seq<ApiCall>, next: nat)

  /** A centre is complete when every date the service offered was read. */
  function ReadingOf(centre: string, dates: seq<Date>, days: seq<DayRead>, calls: seq<ApiCall>): CentreReading {
    if AllRead(days) && |days| == |dates|
    then CentreReading(centre, true, StateOf(days), false, KindsOf(calls))
    else Unread(centre, KindsOf(calls))
  }

  /** The dates of a days call, when they could be read. */
  function DatesOffered(days: ApiCall): Option<seq<Date>> {
    if days.Ok() && days.outcome.payload.days.Some? then Some(ParseDays(days.outcome.payload.days.value)) else None
  }

  function ReadOffered(
    service: Service, k: nat, department: Department, offered: Option<seq<Date>>, maxDates: int): DatesRead
  {
    if offered.None? then DatesRead([], [], k)
    else ReadDates(service, k, department.id, Wanted(offered.value, maxDates))
  }

  /** A days call followed by a slots call for every date it offered. */
  function DaysThenDates(
    service: Service, k: nat, department: Department, days: ApiCall, offered: Option<seq<Date>>, maxDates: int): DatesRead
  {
    WithDays(days, ReadOffered(service, k + days.attempts, department, offered, maxDates))
  }

  function WithDays(days: ApiCall, read: DatesRead): DatesRead { DatesRead(read.days, [days] + read.calls, read.next) }

  function DepartmentCalls(service: Service, k: nat, department: Department, maxDates: int): DatesRead {
    var days := service.Call(k, DaysCall(department.id));
    DaysThenDates(service, k, department, days, DatesOffered(days), maxDates)
  }

  /** What the days call, the dates it offered and the dates read say about a centre. */
  function DepartmentReading(centre: string, days: ApiCall, offered: Option<seq<Date>>, read: DatesRead): CentreReading {
    if !days.Ok() then Unread(centre, {days.outcome.kind})
    else if offered.None? then Unread(centre, {})
    else ReadingOf(centre, offered.value, read.days, read.calls)
  }

  function ReadDepartment(service: Service, k: nat, department: Department, centre: string, maxDates: int): CentreRead {
    var days := service.Call(k, DaysCall(department.id));
    var read := DepartmentCalls(service, k, department, maxDates);
    CentreRead(DepartmentReading(centre, days, DatesOffered(days), read), read.calls, read.next)
  }

  function ReadCentre(service: Service, k: nat, departments: Payload, centre: string, maxDates: int): CentreRead {
    match ResolveIn(departments, centre)
    case None => CentreRead(Unread(centre, {}), [], k)
    case Some(department) => ReadDepartment(service, k, department, centre, maxDates)
  }

  // ---------------------------------------------------------------------------
  // Every centre
  // ---------------------------------------------------------------------------

  datatype Pass = Pass(readings: seq<CentreReading>, calls: seq<ApiCall>, next: nat)

  function ReadEach(service: Service, k: nat, departments: Payload, centres: seq<string>, maxDates: int): Pass
    decreases centres
  {
    if centres == [] then Pass([], [], k)
    else
      var first := ReadCentre(service, k, departments, centres[0], maxDates);
      var rest := ReadEach(service, first.next, departments, centres[1..], maxDates);
      Pass([first.reading] + rest.readings, first.calls + rest.calls, rest.next)
  }

  function NothingRead(centres: seq<string>, kind: Kind): seq<CentreReading> {
    Map(centres, c => Unread(c, {kind}))
  }

  /** What follows the departments call. */
  function ReadResolved(
    service: Service, k: nat, departments: ApiCall, centres: seq<string>, maxDates: int): Pass
  {
    if !departments.Ok() then Pass(NothingRead(centres, departments.outcome.kind), [], k)
    else ReadEach(service, k, departments.outcome.payload, centres, maxDates)
  }

  function ReadAfter(service: Service, k: nat, departments: ApiCall, centres: seq<string>, maxDates: int): Pass {
    WithDepartments(departments, ReadResolved(service, k + departments.attempts, departments, centres, maxDates))
  }

  function WithDepartments(departments: ApiCall, rest: Pass): Pass {
    Pass(rest.readings, [departments] + rest.calls, rest.next)
  }

  function ReadCentres(service: Service, k: nat, centres: seq<string>, maxDates: int): Pass {
    ReadAfter(service, k, service.Call(k, DepartmentsCall), centres, maxDates)
  }

  // ---------------------------------------------------------------------------
  // What a pass means
  // ---------------------------------------------------------------------------

  datatype Status = Ready | AuthRequired | RateLimit | ServiceUnavailable

  /** A refusal beats a rate limit, which beats anything else incomplete. */
  function StatusOf(readings: seq<CentreReading>): Status {
    if exists r <- readings :: r.kinds * AUTH_REQUIRED_KINDS != {} then AuthRequired
    else if exists r <- readings :: RateLimited in r.kinds then RateLimit
    else if exists r <- readings :: !r.complete then ServiceUnavailable
    else Ready
  }

  // ---------------------------------------------------------------------------
  // The calls of a pass, and the requests behind them
  // ---------------------------------------------------------------------------

  /** This is the call that starts with request `k`.  Said of every endpoint equal to its own, so
      that only proofs that look into calls unfold it. */
  ghost predicate IsCall(service: Service, k: nat, call: ApiCall) {
    forall endpoint :: endpoint == call.endpoint ==> call == service.Call(k, endpoint)
  }

  /** The calls use up the requests `k .. next` one after the other. */
  ghost predicate Covers(service: Service, calls: seq<ApiCall>, k: nat, next: nat)
    decreases calls
  {
    if calls == [] then next == k
    else IsCall(service, k, calls[0]) && Covers(service, calls[1..], k + calls[0].attempts, next)
  }

  function Requests(calls: seq<ApiCall>): nat {
    if calls == [] then 0 else calls[0].attempts + Requests(calls[1..])
  }

  lemma {:induction false} CoversAppend(
    service: Service, a: seq<ApiCall>, b: seq<ApiCall>, k: nat, middle: nat, next: nat)
    requires Covers(service, a, k, middle) && Covers(service, b, middle, next)
    ensures Covers(service, a + b, k, next)
    decreases a
  {
    if a == [] {
      assert a + b == b;
    } else {
      assert (a + b)[1..] == a[1..] + b;
      CoversAppend(service, a[1..], b, k + a[0].attempts, middle, next);
    }
  }

  /** The dates that follow the first one. */
  function ReadOn(service: Service, k: nat, call: ApiCall, department: int, wanted: seq<Date>): DatesRead {
    if EndsScan(call) then DatesRead([], [], k) else ReadDates(service, k, department, wanted)
  }

  lemma ReadDatesFirst(service: Service, k: nat, call: ApiCall, department: int, wanted: seq<Date>)
    requires wanted != [] && call == service.Call(k, SlotsCall(department, wanted[0]))
    ensures ReadDates(service, k, department, wanted)
            == FirstDate(call, wanted[0], ReadOn(service, k + call.attempts, call, department, wanted[1..]))
  {
  }

  ghost predicate CoversDates(service: Service, k: nat, read: DatesRead) { Covers(service, read.calls, k, read.next) }

  lemma {:induction false} DatesAreCovered(service: Service, k: nat, department: int, wanted: seq<Date>)
    ensures CoversDates(service, k, ReadDates(service, k, department, wanted))
    decreases wanted
  {
    if wanted != [] {
      var endpoint := SlotsCall(department, wanted[0]);
      var call := service.Call(k, endpoint);
      if !EndsScan(call) {
        DatesAreCovered(service, k + call.attempts, department, wanted[1..]);
      }
      ReadDatesFirst(service, k, call, department, wanted);
    }
  }

  /** A scan asks for the wanted dates in order, once each, and stops only at a failure
      that ends it. */
  ghost predicate InOrder(read: DatesRead, department: int, wanted: seq<Date>) {
    && |read.calls| == |read.days| <= |wanted|
    && (forall i :: 0 <= i < |read.days| ==>
          read.calls[i].endpoint == SlotsCall(department, wanted[i])
          && read.days[i] == DayOf(read.calls[i], wanted[i]))
    && (forall i :: 0 <= i < |read.calls| - 1 ==> !EndsScan(read.calls[i]))
    && (|read.calls| < |wanted| ==> |read.calls| > 0 && EndsScan(read.calls[|read.calls| - 1]))
  }

  lemma {:induction false} DatesAreInOrder(service: Service, k: nat, department: int, wanted: seq<Date>)
    ensures InOrder(ReadDates(service, k, department, wanted), department, wanted)
    decreases wanted
  {
    if wanted != [] {
      var call := service.Call(k, SlotsCall(department, wanted[0]));
      var rest := ReadOn(service, k + call.attempts, call, department, wanted[1..]);
      ReadDatesFirst(service, k, call, department, wanted);
      if EndsScan(call) {
        InOrderLast(call, rest, department, wanted);
      } else {
        DatesAreInOrder(service, k + call.attempts, department, wanted[1..]);
        InOrderCons(call, rest, department, wanted);
      }
    }
  }

  lemma InOrderLast(call: ApiCall, none: DatesRead, department: int, wanted: seq<Date>)
    requires wanted != [] && call.endpoint == SlotsCall(department, wanted[0]) && EndsScan(call)
    requires none.days == [] && none.calls == []
    ensures InOrder(FirstDate(call, wanted[0], none), department, wanted)
  {
  }

  lemma InOrderCons(call: ApiCall, rest: DatesRead, department: int, wanted: seq<Date>)
    requires wanted != [] && InOrder(rest, department, wanted[1..])
    requires call.endpoint == SlotsCall(department, wanted[0]) && !EndsScan(call)
    ensures InOrder(FirstDate(call, wanted[0], rest), department, wanted)
  {
    var all := FirstDate(call, wanted[0], rest);
    forall i | 0 <= i < |all.calls| - 1 ensures !EndsScan(all.calls[i]) {
      assert i > 0 ==> all.calls[i] == rest.calls[i - 1];
    }
    forall i | 0 <= i < |all.days|
      ensures all.calls[i].endpoint == SlotsCall(department, wanted[i]) && all.days[i] == DayOf(all.calls[i], wanted[i])
    {
      assert i > 0 ==> all.calls[i] == rest.calls[i - 1] && all.days[i] == rest.days[i - 1] && wanted[i] == wanted[1..][i - 1];
    }
  }

  lemma OfferedAreCovered(
    service: Service, k: nat, department: Department, offered: Option<seq<Date>>, maxDates: int)
    ensures var read := ReadOffered(service, k, department, offered, maxDates);
            Covers(service, read.calls, k, read.next)
  {
    if offered.Some? {
      DatesAreCovered(service, k, department.id, Wanted(offered.value, maxDates));
    }
  }

  lemma DaysThenDatesAreCovered(
    service: Service, k: nat, department: Department, days: ApiCall, offered: Option<seq<Date>>, maxDates: int)
    requires IsCall(service, k, days)
    ensures var read := DaysThenDates(service, k, department, days, offered, maxDates);
            Covers(service, read.calls, k, read.next)
  {
    OfferedAreCovered(service, k + days.attempts, department, offered, maxDates);
    var read := ReadOffered(service, k + days.attempts, department, offered, maxDates);
  }

  lemma DepartmentIsCovered(service: Service, k: nat, department: Department, maxDates: int)
    ensures var read := DepartmentCalls(service, k, department, maxDates);
            Covers(service, read.calls, k, read.next)
  {
    var days := service.Call(k, DaysCall(department.id));
    DaysThenDatesAreCovered(service, k, department, days, DatesOffered(days), maxDates);
  }

  lemma CentreIsCovered(service: Service, k: nat, departments: Payload, centre: string, maxDates: int)
    ensures var read := ReadCentre(service, k, departments, centre, maxDates);
            Covers(service, read.calls, k, read.next)
  {
    match ResolveIn(departments, centre)
    case None =>
    case Some(department) => DepartmentIsCovered(service, k, department, maxDates);
  }

  lemma {:induction false} EachIsCovered(
    service: Service, k: nat, departments: Payload, centres: seq<string>, maxDates: int)
    ensures var pass := ReadEach(service, k, departments, centres, maxDates);
            Covers(service, pass.calls, k, pass.next)
    decreases centres
  {
    if centres != [] {
      var first := ReadCentre(service, k, departments, centres[0], maxDates);
      CentreIsCovered(service, k, departments, centres[0], maxDates);
      EachIsCovered(service, first.next, departments, centres[1..], maxDates);
      var rest := ReadEach(service, first.next, departments, centres[1..], maxDates);
      CoversAppend(service, first.calls, rest.calls, k, first.next, rest.next);
    }
  }

  lemma ResolvedIsCovered(service: Service, k: nat, departments: ApiCall, centres: seq<string>, maxDates: int)
    ensures forall rest :: rest == ReadResolved(service, k, departments, centres, maxDates) ==>
              Covers(service, rest.calls, k, rest.next)
  {
    if departments.Ok() {
      EachIsCovered(service, k, departments.outcome.payload, centres, maxDates);
    }
  }

  lemma AfterIsResolved(service: Service, k: nat, departments: ApiCall, centres: seq<string>, maxDates: int)
    ensures forall after | after == k + departments.attempts ::
              ReadAfter(service, k, departments, centres, maxDates) ==
              WithDepartments(departments, ReadResolved(service, after, departments, centres, maxDates))
  {
  }

  lemma AfterIsCovered(service: Service, k: nat, departments: ApiCall, centres: seq<string>, maxDates: int)
    requires IsCall(service, k, departments)
    ensures var pass := WithDepartments(departments, ReadResolved(service, k + departments.attempts, departments, centres, maxDates));
            Covers(service, pass.calls, k, pass.next)
  {
    var after := k + departments.attempts;
    ResolvedIsCovered(service, after, departments, centres, maxDates);
    forall rest | rest == ReadResolved(service, after, departments, centres, maxDates)
      ensures Covers(service, WithDepartments(departments, rest).calls, k, WithDepartments(departments, rest).next)
    {
      DepartmentsFirst(service, k, departments, rest);
    }
  }

  lemma DepartmentsFirst(service: Service, k: nat, departments: ApiCall, rest: Pass)
    requires IsCall(service, k, departments) && Covers(service, rest.calls, k + departments.attempts, rest.next)
    ensures Covers(service, WithDepartments(departments, rest).calls, k, WithDepartments(departments, rest).next)
  {
  }

  lemma PassIsCovered(service: Service, k: nat, centres: seq<string>, maxDates: int)
    ensures var pass := ReadCentres(service, k, centres, maxDates);
            Covers(service, pass.calls, k, pass.next)
  {
    AfterIsCovered(service, k, service.Call(k, DepartmentsCall), centres, maxDates);
    AfterIsResolved(service, k, service.Call(k, DepartmentsCall), centres, maxDates);
  }

  lemma OneMoreTimes(n: nat, limit: nat)
    ensures (n + 1) * limit == n * limit + limit
  {
  }

  /** Requests are what the calls report as attempts, at most `AttemptLimit` each. */
  lemma {:induction false} CoveredRequests(service: Service, calls: seq<ApiCall>, k: nat, next: nat)
    requires Covers(service, calls, k, next)
    ensures next == k + Requests(calls)
    ensures |calls| <= Requests(calls) <= |calls| * AttemptLimit(service.retry)
    decreases calls
  {
    if calls != [] {
      assert calls[0] == service.Call(k, calls[0].endpoint);
      CoveredRequests(service, calls[1..], k + calls[0].attempts, next);
      OneMoreTimes(|calls| - 1, AttemptLimit(service.retry));
    }
  }

  ghost predicate RefusedAs(service: Service, k: nat, next: nat, kind: Kind) {
    exists i :: k <= i < next && Perform(service.replies(i)).kind == kind
  }

  /** Some call was refused exactly when some physical answer was. */
  lemma {:induction false} CoveredRefusal(service: Service, calls: seq<ApiCall>, k: nat, next: nat, kind: Kind)
    requires Covers(service, calls, k, next) && kind in AUTH_REQUIRED_KINDS
    ensures k <= next
    ensures kind in KindsOf(calls) <==> RefusedAs(service, k, next, kind)
    decreases calls
  {
    if calls != [] {
      var after := k + calls[0].attempts;
      assert calls[0] == service.Call(k, calls[0].endpoint);
      CoveredRefusal(service, calls[1..], after, next, kind);
      RefusalEndsCall(service.replies, k, service.retry, calls[0].endpoint, kind);
      KindsOfCons(calls[0], calls[1..]);
      assert calls == [calls[0]] + calls[1..];
      assert RefusedAs(service, k, next, kind) <==> RefusedAs(service, k, after, kind) || RefusedAs(service, after, next, kind);
    }
  }

  lemma CoveredRefusals(service: Service, calls: seq<ApiCall>, k: nat, next: nat)
    requires Covers(service, calls, k, next)
    ensures (exists c <- calls :: c.outcome.kind in AUTH_REQUIRED_KINDS) <==>
            exists i :: k <= i < next && Refused(service.replies(i))
  {
    CoveredRefusal(service, calls, k, next, Unauthorized);
    CoveredRefusal(service, calls, k, next, Forbidden);
    forall i | k <= i < next ensures Refused(service.replies(i)) <==> Perform(service.replies(i)).kind in AUTH_REQUIRED_KINDS {
      RefusedMeans(service.replies(i));
    }
    assert (exists c <- calls :: c.outcome.kind in AUTH_REQUIRED_KINDS) <==>
           Unauthorized in KindsOf(calls) || Forbidden in KindsOf(calls);
  }

  ghost predicate KindsAgree(read: CentreRead, centre: string) {
    && read.reading.kinds - {Json} == KindsOf(read.calls) - {Json}
    && (read.reading.complete ==> read.reading.kinds == {Json})
    && read.reading.centre == centre
  }

  lemma KindsOfCons(call: ApiCall, rest: seq<ApiCall>)
    ensures KindsOf([call] + rest) == {call.outcome.kind} + KindsOf(rest)
  {
  }

  lemma NoDatesKinds(days: ApiCall, centre: string, read: DatesRead)
    requires read.calls == [] && read.days == []
    ensures var all := WithDays(days, read);
            KindsAgree(CentreRead(DepartmentReading(centre, days, None, all), all.calls, all.next), centre)
  {
  }

  lemma OfferedKinds(
    service: Service, k: nat, department: Department, days: ApiCall, offered: Option<seq<Date>>,
    centre: string, maxDates: int)
    requires offered.Some? ==> days.Ok()
    ensures var read := ReadOffered(service, k, department, offered, maxDates);
            var all := WithDays(days, read);
            KindsAgree(CentreRead(DepartmentReading(centre, days, offered, all), all.calls, all.next), centre)
  {
    var read := ReadOffered(service, k, department, offered, maxDates);
    if offered.Some? {
      DatesAreInOrder(service, k, department.id, Wanted(offered.value, maxDates));
    } else {
      NoDatesKinds(days, centre, read);
    }
  }

  lemma ReadDepartmentIs(service: Service, k: nat, department: Department, centre: string, maxDates: int)
    ensures forall days, after | days == service.Call(k, DaysCall(department.id)) && after == k + days.attempts ::
              var read := WithDays(days, ReadOffered(service, after, department, DatesOffered(days), maxDates));
              ReadDepartment(service, k, department, centre, maxDates) ==
              CentreRead(DepartmentReading(centre, days, DatesOffered(days), read), read.calls, read.next)
  {
  }

  lemma DepartmentKinds(service: Service, k: nat, department: Department, centre: string, maxDates: int)
    ensures KindsAgree(ReadDepartment(service, k, department, centre, maxDates), centre)
  {
    var days := service.Call(k, DaysCall(department.id));
    OfferedKinds(service, k + days.attempts, department, days, DatesOffered(days), centre, maxDates);
    ReadDepartmentIs(service, k, department, centre, maxDates);
  }

  /** Every failed call of a centre shows in its kinds, and no kind is invented. */
  lemma CentreKinds(service: Service, k: nat, departments: Payload, centre: string, maxDates: int)
    ensures KindsAgree(ReadCentre(service, k, departments, centre, maxDates), centre)
  {
    match ResolveIn(departments, centre)
    case None =>
    case Some(department) => DepartmentKinds(service, k, department, centre, maxDates);
  }

  lemma {:induction false} EachKinds(
    service: Service, k: nat, departments: Payload, centres: seq<string>, maxDates: int)
    ensures var pass := ReadEach(service, k, departments, centres, maxDates);
            && |pass.readings| == |centres|
            && (forall i :: 0 <= i < |centres| ==> pass.readings[i].centre == centres[i])
            && (forall kind :: kind != Json ==>
                  ((exists r <- pass.readings :: kind in r.kinds) <==> kind in KindsOf(pass.calls)))
            && (forall r <- pass.readings :: r.complete ==> r.kinds == {Json})
    decreases centres
  {
    if centres != [] {
      var first := ReadCentre(service, k, departments, centres[0], maxDates);
      CentreKinds(service, k, departments, centres[0], maxDates);
      EachKinds(service, first.next, departments, centres[1..], maxDates);
      var rest := ReadEach(service, first.next, departments, centres[1..], maxDates);
      var pass := ReadEach(service, k, departments, centres, maxDates);
      assert pass.readings == [first.reading] + rest.readings;
      forall kind | kind != Json
        ensures (exists r <- pass.readings :: kind in r.kinds) <==> kind in KindsOf(pass.calls)
      {
        assert kind in first.reading.kinds <==> kind in first.reading.kinds - {Json};
        assert kind in KindsOf(first.calls) <==> kind in KindsOf(first.calls) - {Json};
        assert KindsOf(pass.calls) == KindsOf(first.calls) + KindsOf(rest.calls);
        if kind in first.reading.kinds {
          assert first.reading in pass.readings;
        }
        if r :| r in rest.readings && kind in r.kinds {
          assert r in pass.readings;
        }
      }
    }
  }

  // ---------------------------------------------------------------------------
  // What a whole pass promises
  // ---------------------------------------------------------------------------

  lemma PassKinds(service: Service, k: nat, centres: seq<string>, maxDates: int)
    requires centres != []
    ensures var pass := ReadCentres(service, k, centres, maxDates);
            && |pass.readings| == |centres|
            && (forall kind :: kind != Json ==>
                  ((exists r <- pass.readings :: kind in r.kinds) <==> kind in KindsOf(pass.calls)))
            && (forall r <- pass.readings :: r.complete ==> r.kinds == {Json})
  {
    ResolvedKinds(service, k, service.Call(k, DepartmentsCall), centres, maxDates);
  }

  lemma ResolvedKinds(service: Service, k: nat, departments: ApiCall, centres: seq<string>, maxDates: int)
    requires centres != []
    ensures var pass := WithDepartments(departments, ReadResolved(service, k + departments.attempts, departments, centres, maxDates));
            && |pass.readings| == |centres|
            && (forall kind :: kind != Json ==>
                  ((exists r <- pass.readings :: kind in r.kinds) <==> kind in KindsOf(pass.calls)))
            && (forall r <- pass.readings :: r.complete ==> r.kinds == {Json})
  {
    var next := k + departments.attempts;
    var rest := ReadResolved(service, next, departments, centres, maxDates);
    KindsOfCons(departments, rest.calls);
    if departments.Ok() {
      EachKinds(service, next, departments.outcome.payload, centres, maxDates);
    } else {
      assert rest.readings[0] in rest.readings && rest.calls == [];
    }
  }

  /** One reading for each centre, in the order they were asked for. */
  lemma PassCentres(service: Service, k: nat, centres: seq<string>, maxDates: int)
    ensures var pass := ReadCentres(service, k, centres, maxDates);
            |pass.readings| == |centres| && forall i :: 0 <= i < |centres| ==> pass.readings[i].centre == centres[i]
  {
    var departments := service.Call(k, DepartmentsCall);
    if departments.Ok() {
      EachKinds(service, k + departments.attempts, departments.outcome.payload, centres, maxDates);
    }
  }

  /** The pass pauses the monitor exactly when some physical answer refused the
      session: retries that run out never do. */
  lemma AuthRequiredIff(service: Service, k: nat, centres: seq<string>, maxDates: int)
    requires centres != []
    ensures var pass := ReadCentres(service, k, centres, maxDates);
            StatusOf(pass.readings) == AuthRequired <==>
            exists i :: k <= i < pass.next && Refused(service.replies(i))
  {
    var pass := ReadCentres(service, k, centres, maxDates);
    PassKinds(service, k, centres, maxDates);
    PassIsCovered(service, k, centres, maxDates);
    CoveredRefusals(service, pass.calls, k, pass.next);
    RefusedKinds(pass.readings, pass.calls);
  }

  lemma RefusedKinds(readings: seq<CentreReading>, calls: seq<ApiCall>)
    requires forall kind :: kind != Json ==>
               ((exists r <- readings :: kind in r.kinds) <==> kind in KindsOf(calls))
    ensures (exists r <- readings :: r.kinds * AUTH_REQUIRED_KINDS != {}) <==>
            exists c <- calls :: c.outcome.kind in AUTH_REQUIRED_KINDS
  {
    assert Unauthorized != Json && Forbidden != Json;
    if r :| r in readings && r.kinds * AUTH_REQUIRED_KINDS != {} {
      var kind :| kind in r.kinds * AUTH_REQUIRED_KINDS;
      assert kind in KindsOf(calls);
    }
    if c :| c in calls && c.outcome.kind in AUTH_REQUIRED_KINDS {
      var kind := c.outcome.kind;
      assert kind in KindsOf(calls);
      var r :| r in readings && kind in r.kinds;
      assert kind in r.kinds * AUTH_REQUIRED_KINDS;
    }
  }

  /** Success means every centre was read completely, and nothing less. */
  lemma ReadyIff(service: Service, k: nat, centres: seq<string>, maxDates: int)
    requires centres != []
    ensures var pass := ReadCentres(service, k, centres, maxDates);
            StatusOf(pass.readings) == Ready <==> forall r <- pass.readings :: r.complete
  {
    PassKinds(service, k, centres, maxDates);
  }

  /** Asked directly for no centre at all, a pass is a success even when it was refused; the
      command never asks (config.py, centers_to_scan). */
  lemma NoCentresIsReady(service: Service, k: nat, maxDates: int)
    ensures StatusOf(ReadCentres(service, k, [], maxDates).readings) == Ready
  {
  }

  /** Requests made, requests reported and requests allowed. */
  lemma PassRequests(service: Service, k: nat, centres: seq<string>, maxDates: int)
    ensures var pass := ReadCentres(service, k, centres, maxDates);
            && pass.next - k == Requests(pass.calls)
            && Requests(pass.calls) <= |pass.calls| * AttemptLimit(service.retry)
  {
    var pass := ReadCentres(service, k, centres, maxDates);
    PassIsCovered(service, k, centres, maxDates);
    CoveredRequests(service, pass.calls, k, pass.next);
  }

  // ---------------------------------------------------------------------------
  // Which calls are made
  // ---------------------------------------------------------------------------

  /** One centre costs nothing, or one days call and then one slots call for each of the
      first dates it offered. */
  ghost predicate AsksOnce(calls: seq<ApiCall>) {
    calls != [] ==>
      && calls[0].endpoint.DaysCall?
      && var dates := DatesOffered(calls[0]).GetOr([]);
         && |calls| <= 1 + |dates|
         && forall i :: 1 <= i < |calls| ==> calls[i].endpoint == SlotsCall(calls[0].endpoint.department, dates[i - 1])
  }

  lemma InOrderAsksOnce(days: ApiCall, dates: seq<Date>, read: DatesRead, department: int, maxDates: int)
    requires days.endpoint == DaysCall(department) && DatesOffered(days) == Some(dates)
    requires InOrder(read, department, Wanted(dates, maxDates))
    ensures AsksOnce([days] + read.calls)
  {
  }

  lemma CentreAsksOnce(service: Service, k: nat, departments: Payload, centre: string, maxDates: int)
    ensures AsksOnce(ReadCentre(service, k, departments, centre, maxDates).calls)
  {
    match ResolveIn(departments, centre)
    case None =>
    case Some(department) => DepartmentAsksOnce(service, k, department, maxDates);
  }

  lemma DepartmentAsksOnce(service: Service, k: nat, department: Department, maxDates: int)
    ensures AsksOnce(DepartmentCalls(service, k, department, maxDates).calls)
  {
    var days := service.Call(k, DaysCall(department.id));
    var offered := DatesOffered(days);
    if offered.Some? {
      var wanted := Wanted(offered.value, maxDates);
      DatesAreInOrder(service, k + days.attempts, department.id, wanted);
      InOrderAsksOnce(days, offered.value, ReadDates(service, k + days.attempts, department.id, wanted),
                      department.id, maxDates);
    }
  }

  ghost predicate AllAskOnce(perCentre: seq<seq<ApiCall>>) { forall calls <- perCentre :: AsksOnce(calls) }

  /** The calls of a pass: departments, then each centre's calls. */
  lemma {:induction false} EachAsksOnce(
    service: Service, k: nat, departments: Payload, centres: seq<string>, maxDates: int)
    returns (perCentre: seq<seq<ApiCall>>)
    ensures |perCentre| == |centres| && AllAskOnce(perCentre)
    ensures ReadEach(service, k, departments, centres, maxDates).calls == Flatten(perCentre)
    decreases centres
  {
    if centres == [] {
      perCentre := [];
    } else {
      var first := ReadCentre(service, k, departments, centres[0], maxDates);
      CentreAsksOnce(service, k, departments, centres[0], maxDates);
      var rest := EachAsksOnce(service, first.next, departments, centres[1..], maxDates);
      perCentre := [first.calls] + rest;
      assert perCentre[1..] == rest;
    }
  }

  lemma ResolvedAsksOnce(service: Service, k: nat, departments: ApiCall, centres: seq<string>, maxDates: int)
    returns (perCentre: seq<seq<ApiCall>>)
    ensures |perCentre| <= |centres| && AllAskOnce(perCentre)
    ensures ReadResolved(service, k, departments, centres, maxDates).calls == Flatten(perCentre)
  {
    if departments.Ok() {
      perCentre := EachAsksOnce(service, k, departments.outcome.payload, centres, maxDates);
    } else {
      perCentre := [];
    }
  }

  lemma {:induction false} AfterAsksOnce(service: Service, k: nat, departments: ApiCall, centres: seq<string>, maxDates: int)
    returns (perCentre: seq<seq<ApiCall>>)
    ensures |perCentre| <= |centres| && AllAskOnce(perCentre)
    ensures var rest := ReadResolved(service, k + departments.attempts, departments, centres, maxDates);
            WithDepartments(departments, rest).calls == [departments] + Flatten(perCentre)
  {
    perCentre := ResolvedAsksOnce(service, k + departments.attempts, departments, centres, maxDates);
  }

  /** One departments call, and for each centre at most one days call and one slots call
      per date it offered, in date order. */
  lemma PassAsksOnce(service: Service, k: nat, centres: seq<string>, maxDates: int)
    returns (perCentre: seq<seq<ApiCall>>)
    ensures |perCentre| <= |centres| && AllAskOnce(perCentre)
    ensures var pass := ReadCentres(service, k, centres, maxDates);
            pass.calls == [service.Call(k, DepartmentsCall)] + Flatten(perCentre)
  {
    perCentre := AfterAsksOnce(service, k, service.Call(k, DepartmentsCall), centres, maxDates);
    AfterIsResolved(service, k, service.Call(k, DepartmentsCall), centres, maxDates);
  }

  /** The dates of a scan are the listed ones, each once, in calendar order: no date is
      ever asked about twice. */
  lemma ParseDaysIs(listed: seq<Date>)
    ensures forall d :: d in ParseDays(listed) <==> d in listed
    ensures forall i, j :: 0 <= i < j < |ParseDays(listed)| ==>
              Ordinal(ParseDays(listed)[i]) < Ordinal(ParseDays(listed)[j])
  {
    DistinctIsDistinct(listed);
    SortMembers(Distinct(listed), DateLeq);
    SortSorts(Distinct(listed), DateLeq);
    SameMembersNoRepeats(Distinct(listed), ParseDays(listed));
    forall i, j | 0 <= i < j < |ParseDays(listed)| ensures Ordinal(ParseDays(listed)[i]) < Ordinal(ParseDays(listed)[j]) {
      OrdinalIdentifies(ParseDays(listed)[i], ParseDays(listed)[j]);
    }
  }

  // ---------------------------------------------------------------------------
  // What a complete reading holds
  // ---------------------------------------------------------------------------

  lemma {:induction false} TimesReadIs(days: seq<DayRead>, date: Date, start: Clock)
    ensures (exists end :: ((date, start), end) in TimesRead(days)) <==>
            exists d, s :: d in days && d.date == date && s in d.slots.GetOr([]) && s.start == start
  {
    if days != [] {
      TimesReadIs(days[1..], date, start);
      assert days == [days[0]] + days[1..];
      var here := TimesOf(days[0].date, days[0].slots.GetOr([]));
      assert TimesRead(days) == here + TimesRead(days[1..]);
      if end :| ((date, start), end) in here {
        var i :| 0 <= i < |here| && here[i] == ((date, start), end);
        assert days[0].slots.GetOr([])[i] in days[0].slots.GetOr([]);
      }
      if d, s :| d in days && d.date == date && s in d.slots.GetOr([]) && s.start == start {
        if d == days[0] {
          var i :| 0 <= i < |d.slots.GetOr([])| && d.slots.GetOr([])[i] == s;
          assert here[i] == ((date, start), s.end);
          assert ((date, start), s.end) in TimesRead(days);
        } else {
          assert d in days[1..];
          var end :| ((date, start), end) in TimesRead(days[1..]);
          assert ((date, start), end) in TimesRead(days);
        }
      }
    }
  }

  /** A state holds exactly the starts that were read, each under its date. */
  lemma StateOfIs(days: seq<DayRead>, date: Date, start: Clock)
    ensures (date, start) in Keys(StateOf(days)) <==>
            exists d, s :: d in days && d.date == date && s in d.slots.GetOr([]) && s.start == start
    ensures Unique(StateOf(days))
  {
    FromPairsIsDict(TimesRead(days));
    TimesReadIs(days, date, start);
    if (date, start) in Keys(StateOf(days)) {
      var p :| p in TimesRead(days) && p.0 == (date, start);
      assert ((date, start), p.1) in TimesRead(days);
    }
    if end :| ((date, start), end) in TimesRead(days) {
      assert ((date, start), end).0 == (date, start);
    }
  }
}
