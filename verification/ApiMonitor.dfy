/**
 The long-running monitor (api/monitor.py): what it remembers of each centre, what it
 reports, and its one recovery a cycle.
 */
module ApiMonitor {
  import opened Common
  import opened Calendar
  import opened Dicts
  import opened Sorting
  import opened Http
  import opened Scan

  // ---------------------------------------------------------------------------
  // Diffing one centre
  // ---------------------------------------------------------------------------

  /** A free time: date and start identify it, the end is metadata. */
  type Time = ((Date, Clock), Option<Clock>)

  datatype CentreDiff = CentreDiff(centre: string, added: seq<Time>, removed: seq<Time>) {
    predicate Changed() { added != [] || removed != [] }
  }

  predicate TimeLeq(a: Time, b: Time) {
    Ordinal(a.0.0) < Ordinal(b.0.0) || (Ordinal(a.0.0) == Ordinal(b.0.0) && a.0.1 <= b.0.1)
  }

  function DiffStates(centre: string, previous: CentreState, current: CentreState): CentreDiff {
    CentreDiff(centre, Sort(OnlyIn(current, previous), TimeLeq), Sort(OnlyIn(previous, current), TimeLeq))
  }

  lemma KeysOfSorted(times: seq<Time>)
    ensures Keys(Sort(times, TimeLeq)) == Keys(times)
  {
    SortMembers(times, TimeLeq);
    SameMembersSameKeys(times, Sort(times, TimeLeq));
  }

  /** A diff names exactly the times that appeared and the times that went away. */
  lemma DiffStatesIs(centre: string, previous: CentreState, current: CentreState)
    ensures var diff := DiffStates(centre, previous, current);
            && Keys(diff.added) == Keys(current) - Keys(previous)
            && Keys(diff.removed) == Keys(previous) - Keys(current)
            && (diff.Changed() <==> Keys(current) != Keys(previous))
  {
    OnlyInKeys(current, previous);
    OnlyInKeys(previous, current);
    KeysOfSorted(OnlyIn(current, previous));
    KeysOfSorted(OnlyIn(previous, current));
    var diff := DiffStates(centre, previous, current);
    NoKeysNoPairs(diff.added);
    NoKeysNoPairs(diff.removed);
  }

  // ---------------------------------------------------------------------------
  // Remembering
  // ---------------------------------------------------------------------------

  type Memory = map<string, CentreState>

  datatype Applied = Applied(memory: Memory, diffs: seq<CentreDiff>)

  /** One reading: only a complete one replaces anything, and the first is a baseline. */
  function ApplyOne(before: Applied, reading: CentreReading): Applied {
    if !reading.complete then before
    else
      var memory := before.memory[reading.centre := reading.state];
      if reading.centre !in before.memory then Applied(memory, before.diffs)
      else
        var diff := DiffStates(reading.centre, before.memory[reading.centre], reading.state);
        Applied(memory, before.diffs + if diff.Changed() then [diff] else [])
  }

  function Apply(memory: Memory, readings: seq<CentreReading>): Applied {
    if readings == [] then Applied(memory, [])
    else ApplyOne(Apply(memory, readings[..|readings| - 1]), readings[|readings| - 1])
  }

  /** The last complete reading of a centre. */
  function LastComplete(readings: seq<CentreReading>, centre: string): Option<CentreState> {
    if readings == [] then None
    else
      var last := readings[|readings| - 1];
      if last.complete && last.centre == centre then Some(last.state)
      else LastComplete(readings[..|readings| - 1], centre)
  }

  /** What is remembered is the last complete reading, and otherwise what was remembered. */
  lemma {:induction false} MemoryIsLastComplete(memory: Memory, readings: seq<CentreReading>, centre: string)
    ensures var after := Apply(memory, readings).memory;
            match LastComplete(readings, centre)
            case Some(state) => centre in after && after[centre] == state
            case None => (centre in after <==> centre in memory) && (centre in memory ==> after[centre] == memory[centre])
  {
    if readings != [] {
      MemoryIsLastComplete(memory, readings[..|readings| - 1], centre);
    }
  }

  ghost function KeysAt(memory: Memory, centre: string): set<(Date, Clock)>
    requires centre in memory
  {
    Keys(memory[centre])
  }

  /** The known times of a centre, according to the reported diffs alone. */
  ghost function Replayed(known: set<(Date, Clock)>, diffs: seq<CentreDiff>, centre: string): set<(Date, Clock)> {
    if diffs == [] then known
    else
      var before, last := Replayed(known, diffs[..|diffs| - 1], centre), diffs[|diffs| - 1];
      if last.centre == centre then before - Keys(last.removed) + Keys(last.added) else before
  }

  lemma Exchange<T>(previous: set<T>, current: set<T>)
    ensures previous - (previous - current) + (current - previous) == current
  {
  }

  lemma ReplayChange(
    known: set<(Date, Clock)>, diffs: seq<CentreDiff>, centre: string, previous: CentreState, current: CentreState)
    requires Replayed(known, diffs, centre) == Keys(previous)
    ensures var diff := DiffStates(centre, previous, current);
            Replayed(known, diffs + if diff.Changed() then [diff] else [], centre) == Keys(current)
  {
    var diff := DiffStates(centre, previous, current);
    DiffStatesIs(centre, previous, current);
    Exchange(Keys(previous), Keys(current));
    assert diffs + [] == diffs;
  }

  lemma ReplayOthers(known: set<(Date, Clock)>, diffs: seq<CentreDiff>, diff: CentreDiff, centre: string)
    requires diff.centre != centre
    ensures Replayed(known, diffs + if diff.Changed() then [diff] else [], centre) == Replayed(known, diffs, centre)
  {
    assert diffs + [] == diffs;
  }

  lemma ReplayOne(before: Applied, reading: CentreReading, known: set<(Date, Clock)>, centre: string)
    requires centre in before.memory && KeysAt(before.memory, centre) == Replayed(known, before.diffs, centre)
    ensures var after := ApplyOne(before, reading);
            centre in after.memory && KeysAt(after.memory, centre) == Replayed(known, after.diffs, centre)
  {
    if reading.complete && reading.centre in before.memory {
      if reading.centre == centre {
        ReplayChange(known, before.diffs, centre, before.memory[centre], reading.state);
      } else {
        ReplayOthers(known, before.diffs, DiffStates(reading.centre, before.memory[reading.centre], reading.state), centre);
      }
    }
  }

  /** Replaying the reported diffs onto what was known of a centre gives what is known now. */
  lemma {:induction false} ReplayIsMemory(memory: Memory, readings: seq<CentreReading>, centre: string)
    requires centre in memory
    ensures var after := Apply(memory, readings);
            centre in after.memory && KeysAt(after.memory, centre) == Replayed(KeysAt(memory, centre), after.diffs, centre)
  {
    if readings != [] {
      var n := |readings| - 1;
      ReplayIsMemory(memory, readings[..n], centre);
      ReplayOne(Apply(memory, readings[..n]), readings[n], KeysAt(memory, centre), centre);
    }
  }

  lemma ApplyOneLater(a: Applied, earlier: seq<CentreDiff>, reading: CentreReading)
    ensures ApplyOne(Applied(a.memory, earlier + a.diffs), reading) ==
            Applied(ApplyOne(a, reading).memory, earlier + ApplyOne(a, reading).diffs)
  {
  }

  lemma {:induction false} ApplyAppend(memory: Memory, a: seq<CentreReading>, b: seq<CentreReading>)
    ensures var first := Apply(memory, a);
            var second := Apply(first.memory, b);
            Apply(memory, a + b) == Applied(second.memory, first.diffs + second.diffs)
  {
    var first := Apply(memory, a);
    if b == [] {
      assert a + b == a && first.diffs + [] == first.diffs;
    } else {
      var n := |b| - 1;
      ApplyAppend(memory, a, b[..n]);
      assert (a + b)[..|a + b| - 1] == a + b[..n];
      ApplyOneLater(Apply(first.memory, b[..n]), first.diffs, b[n]);
    }
  }

  // ---------------------------------------------------------------------------
  // Cycles
  // ---------------------------------------------------------------------------

  /** What one cycle meets: its first read pass, whether a recovery would work, and the
      read pass after it. */
  datatype Turn = Turn(first: seq<CentreReading>, recovers: bool, second: seq<CentreReading>)

  predicate NeedsRecovery(readings: seq<CentreReading>) { exists r <- readings :: r.needsAuthRecovery }

  /** The readings of a cycle that are applied. */
  function Applicable(turn: Turn): seq<CentreReading> {
    if !NeedsRecovery(turn.first) then turn.first else if turn.recovers then turn.second else []
  }

  predicate Fails(turn: Turn) { NeedsRecovery(turn.first) && !turn.recovers }

  /** A failed recovery leaves no client behind; from then on, every cycle raises. */
  datatype Monitor = Monitor(connected: bool, memory: Memory)

  function Cycled(m: Monitor, turn: Turn): Monitor {
    if !m.connected then m else Monitor(!Fails(turn), Apply(m.memory, Applicable(turn)).memory)
  }

  function Reported(m: Monitor, turn: Turn): seq<CentreDiff> {
    if !m.connected then [] else Apply(m.memory, Applicable(turn)).diffs
  }

  function After(m: Monitor, turns: seq<Turn>): Monitor {
    if turns == [] then m else Cycled(After(m, turns[..|turns| - 1]), turns[|turns| - 1])
  }

  /** Every diff of a run of cycles, in order. */
  function Diffs(m: Monitor, turns: seq<Turn>): seq<CentreDiff> {
    if turns == [] then []
    else
      var n := |turns| - 1;
      Diffs(m, turns[..n]) + Reported(After(m, turns[..n]), turns[n])
  }

  /** Every reading a run of cycles applied, in order. */
  function Readings(m: Monitor, turns: seq<Turn>): seq<CentreReading> {
    if turns == [] then []
    else
      var n := |turns| - 1;
      Readings(m, turns[..n]) + if After(m, turns[..n]).connected then Applicable(turns[n]) else []
  }

  /** A run of cycles is one long application of its readings. */
  lemma {:induction false} RunIsApplication(m: Monitor, turns: seq<Turn>)
    ensures Apply(m.memory, Readings(m, turns)) == Applied(After(m, turns).memory, Diffs(m, turns))
  {
    if turns != [] {
      var n := |turns| - 1;
      RunIsApplication(m, turns[..n]);
      var before := After(m, turns[..n]);
      if before.connected {
        ApplyAppend(m.memory, Readings(m, turns[..n]), Applicable(turns[n]));
      } else {
        assert Readings(m, turns[..n]) + [] == Readings(m, turns[..n]);
        assert Diffs(m, turns[..n]) + [] == Diffs(m, turns[..n]);
      }
    }
  }

  /** Over any run, each centre is remembered as it was last read completely. */
  lemma RememberedIsLastComplete(m: Monitor, turns: seq<Turn>, centre: string)
    requires LastComplete(Readings(m, turns), centre).Some?
    ensures centre in After(m, turns).memory
    ensures After(m, turns).memory[centre] == LastComplete(Readings(m, turns), centre).value
  {
    RunIsApplication(m, turns);
    MemoryIsLastComplete(m.memory, Readings(m, turns), centre);
  }

  /** A centre that is not read completely keeps what was known of it. */
  lemma UnreadIsRetained(m: Monitor, turns: seq<Turn>, centre: string)
    requires centre in m.memory && LastComplete(Readings(m, turns), centre).None?
    ensures centre in After(m, turns).memory && After(m, turns).memory[centre] == m.memory[centre]
  {
    RunIsApplication(m, turns);
    MemoryIsLastComplete(m.memory, Readings(m, turns), centre);
  }

  /** Over any run, replaying the reported diffs from a centre's baseline gives what is
      remembered of it. */
  lemma ReplayOverARun(m: Monitor, turns: seq<Turn>, centre: string)
    requires centre in m.memory
    ensures centre in After(m, turns).memory
    ensures KeysAt(After(m, turns).memory, centre) == Replayed(KeysAt(m.memory, centre), Diffs(m, turns), centre)
  {
    RunIsApplication(m, turns);
    ReplayIsMemory(m.memory, Readings(m, turns), centre);
  }

  /** After a failed recovery nothing is read, reported or changed any more. */
  lemma {:induction false} FailedRecoveryIsTheEnd(m: Monitor, turns: seq<Turn>)
    requires !m.connected
    ensures After(m, turns) == m && Diffs(m, turns) == [] && Readings(m, turns) == []
  {
    if turns != [] {
      FailedRecoveryIsTheEnd(m, turns[..|turns| - 1]);
    }
  }

  // ---------------------------------------------------------------------------
  // When a recovery is called for
  // ---------------------------------------------------------------------------

  predicate AsksFor403(r: CentreReading) { r.needsAuthRecovery <==> Forbidden in r.kinds }

  lemma CentreAsks(service: Service, k: nat, departments: Payload, centre: string, maxDates: int)
    ensures AsksFor403(ReadCentre(service, k, departments, centre, maxDates).reading)
  {
    CentreKinds(service, k, departments, centre, maxDates);
  }

  lemma {:induction false} EachAsks(service: Service, k: nat, departments: Payload, centres: seq<string>, maxDates: int)
    ensures forall r <- ReadEach(service, k, departments, centres, maxDates).readings :: AsksFor403(r)
    decreases centres
  {
    if centres != [] {
      CentreAsks(service, k, departments, centres[0], maxDates);
      EachAsks(service, ReadCentre(service, k, departments, centres[0], maxDates).next, departments, centres[1..], maxDates);
    }
  }

  lemma PassAsks(service: Service, k: nat, centres: seq<string>, maxDates: int)
    ensures forall r <- ReadCentres(service, k, centres, maxDates).readings :: AsksFor403(r)
  {
    var departments := service.Call(k, DepartmentsCall);
    if departments.Ok() {
      EachAsks(service, k + departments.attempts, departments.outcome.payload, centres, maxDates);
    }
  }

  /** A pass asks for a browser exactly when some physical answer in it was a 403. */
  lemma RecoveryIff(service: Service, k: nat, centres: seq<string>, maxDates: int)
    requires centres != []
    ensures var pass := ReadCentres(service, k, centres, maxDates);
            NeedsRecovery(pass.readings) <==> RefusedAs(service, k, pass.next, Forbidden)
  {
    var pass := ReadCentres(service, k, centres, maxDates);
    PassAsks(service, k, centres, maxDates);
    PassKinds(service, k, centres, maxDates);
    PassIsCovered(service, k, centres, maxDates);
    CoveredRefusal(service, pass.calls, k, pass.next, Forbidden);
    assert NeedsRecovery(pass.readings) <==> exists r <- pass.readings :: Forbidden in r.kinds;
  }

  // ---------------------------------------------------------------------------
  // The monitor
  // ---------------------------------------------------------------------------

  datatype CycleReport = CycleReport(
    readings: seq<CentreReading>,
    diffs: seq<CentreDiff>,
    baseline: bool,
    recovered: bool,
    failed: bool)

  class ApiMonitor {
    var connected: bool            // there is a client
    var memory: Memory
    var cycles: nat
    var recoveries: nat
    ghost var passes: nat          // read passes so far
    ghost var browsers: nat        // sessions asked of the provider so far

    /** Started, one way or the other, with a client. */
    constructor ()
      ensures connected && memory == map[] && cycles == recoveries == passes == browsers == 0
    {
      connected, memory, cycles, recoveries, passes, browsers := true, map[], 0, 0, 0, 0;
    }

    function State(): Monitor
      reads this
    {
      Monitor(connected, memory)
    }

    /** A read pass, or the exception that there is no client. */
    method Read(pass: seq<CentreReading>) returns (readings: Option<seq<CentreReading>>)
      modifies this`passes
      ensures readings == if connected then Some(pass) else None
      ensures passes == old(passes) + if connected then 1 else 0
    {
      if !connected {
        return None;
      }
      passes := passes + 1;
      return Some(pass);
    }

    /** Gives up the client it has, and asks the provider for another. */
    method Recover(works: bool) returns (ok: bool)
      modifies this`connected, this`recoveries, this`browsers
      ensures ok == works == connected
      ensures recoveries == old(recoveries) + (if works then 1 else 0) && browsers == old(browsers) + 1
    {
      connected := false;
      browsers := browsers + 1;
      if !works {
        return false;
      }
      connected, recoveries := true, recoveries + 1;
      return true;
    }

    /** Takes over the complete readings and passes over the others. */
    method ApplyReadings(readings: seq<CentreReading>) returns (diffs: seq<CentreDiff>)
      modifies this`memory
      ensures Applied(memory, diffs) == Apply(old(memory), readings)
    {
      diffs := [];
      for i := 0 to |readings|
        invariant Applied(memory, diffs) == Apply(old(memory), readings[..i])
      {
        assert readings[..i + 1][..i] == readings[..i];
        var reading := readings[i];
        if reading.complete {
          var known := reading.centre in memory;
          var previous := if known then memory[reading.centre] else [];
          memory := memory[reading.centre := reading.state];
          if known {
            var diff := DiffStates(reading.centre, previous, reading.state);
            if diff.Changed() {
              diffs := diffs + [diff];
            }
          }
        }
      }
      assert readings[..|readings|] == readings;
    }

    /** One cycle: at most two read passes and one new session. */
    method Cycle(turn: Turn) returns (report: Option<CycleReport>)
      modifies this
      ensures State() == Cycled(old(State()), turn)
      ensures report.Some? <==> old(connected)
      ensures report.Some? ==> report.value.diffs == Reported(old(State()), turn)
      ensures report.Some? ==> report.value.failed == Fails(turn)
      ensures report.Some? ==> report.value.recovered == (NeedsRecovery(turn.first) && turn.recovers)
      ensures report.Some? && !report.value.failed ==>
                report.value.readings == Applicable(turn) && report.value.baseline == (old(cycles) == 0)
      ensures cycles == old(cycles) + if old(connected) && !Fails(turn) then 1 else 0
      ensures passes == old(passes) + if !old(connected) then 0 else if NeedsRecovery(turn.first) && turn.recovers then 2 else 1
      ensures browsers == old(browsers) + if old(connected) && NeedsRecovery(turn.first) then 1 else 0
    {
      var first := Read(turn.first);
      if first.None? {
        return None;
      }
      var readings, recovered := first.value, false;
      if NeedsRecovery(readings) {
        var ok := Recover(turn.recovers);
        if !ok {
          return Some(CycleReport(readings, [], false, false, true));
        }
        var again := Read(turn.second);
        readings, recovered := again.value, true;
      }
      var baseline := cycles == 0;
      var diffs := ApplyReadings(readings);
      cycles := cycles + 1;
      return Some(CycleReport(readings, diffs, baseline, recovered, false));
    }
  }
}
