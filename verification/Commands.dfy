/**
 The two commands (cli.py) and what they tell a person (notifications/dispatcher.py).
 However far a process gets before it is killed, it does what `Protocol` says, and
 what it sends can be read back as the change that was stored.
 */
module Commands {
  import opened Common
  import opened Text
  import opened Slots
  import opened Scan
  import opened Protocol
  import opened Announcements
  import opened Process
  import opened Reader
  import opened Chunking
  import opened Rendering

  // ---------------------------------------------------------------------------
  // Telling someone
  // ---------------------------------------------------------------------------

  /** Read back one by one, the messages give the change: every slot once, under its own
      centre, section and date; and they are short enough to be sent. */
  ghost predicate Tells(messages: seq<string>, diff: AvailabilityDiff) {
    && ((forall c <- CentresIn(diff) :: OneLine(c)) ==> ReadMessages(messages) == Some(Told(diff)))
    && ((forall c <- CentresIn(diff) :: |c| <= 3816) ==> AllWithinLimit(messages))
  }

  predicate IsNews(transition: Option<Transition>) {
    transition.Some? && transition.value.Changed() && transition.value.current != Ready
  }

  class NotificationDispatcher {
    const enabled: bool
    var sent: nat

    constructor (enabled: bool)
      ensures this.enabled == enabled && sent == 0
    {
      this.enabled, sent := enabled, 0;
    }

    /** Only what was stored, and only if it changed.  A change of state is one message. */
    method NotifyScan(world: World, scan: HeadlessScan) returns (count: nat, ghost told: seq<string>)
      modifies this, world`journal
      ensures world.journal == Play(old(world.journal), Dispatched(scan, enabled))
      ensures if enabled && scan.availability.Some? && scan.availability.value.Changed()
              then Tells(told, scan.availability.value) else told == []
      ensures count == |told| + (if enabled && IsNews(scan.transition) then 1 else 0)
      ensures sent == old(sent) + count
    {
      PlayNothing(world.journal);
      if !enabled {
        return 0, [];
      }
      var messages := 0;
      told := [];
      ghost var spoken: seq<Event> := [];
      var diff := scan.availability;
      if diff.Some? && diff.value.Changed() {
        var texts := RenderAvailability(diff.value);
        world.Do(Notified(Change(diff.value)));
        messages, told, spoken := |texts|, texts, [Notified(Change(diff.value))];
      }
      assert world.journal == Play(old(world.journal), spoken);
      if IsNews(scan.transition) {
        PlayAppend(old(world.journal), spoken, [Notified(Trouble(scan.transition.value.current))]);
        world.Do(Notified(Trouble(scan.transition.value.current)));
        messages := messages + 1;
      } else {
        assert spoken + [] == spoken;
      }
      sent := sent + messages;
      return messages, told;
    }
  }

  // ---------------------------------------------------------------------------
  // The commands
  // ---------------------------------------------------------------------------

  /** One `monitor-once`. */
  method RunMonitorOnce(world: World, slotInterval: real, dispatcher: NotificationDispatcher)
    returns (ghost told: seq<string>)
    requires world.NothingSent() && dispatcher.enabled == world.env.notifies
    modifies world, dispatcher
    ensures var action := Monitor(world.env, old(world.journal.fuel));
            && world.journal.docs == Step(old(world.journal.docs), action)
            && world.journal.log == old(world.journal.log) + Landed(old(world.journal.docs), action)
    ensures if Completes(old(world.journal.docs), world.env) && world.env.notifies
                 && DiffOf(old(world.journal.docs), world.env).Changed()
            then Tells(told, DiffOf(old(world.journal.docs), world.env)) else told == []
  {
    ghost var j, docs := world.journal, world.journal.docs;
    var scan := RunHeadlessScan(world, slotInterval);
    var count;
    count, told := dispatcher.NotifyScan(world, scan);
    PlayAppend(j, ScanRun(docs, world.env).events, Dispatched(scan, world.env.notifies));
  }

  /** One `refresh-session`: the session is stored before the state is cleared. */
  method RunRefreshSession(world: World, env: RefreshEnv) returns (ok: bool)
    modifies world`journal
    ensures var action := Refresh(env, old(world.journal.fuel));
            && world.journal.docs == Step(old(world.journal.docs), action)
            && world.journal.log == old(world.journal.log) + Landed(old(world.journal.docs), action)
    ensures ok <==> |RefreshSession(old(world.journal.docs), env)| == 2
  {
    ghost var j := world.journal;
    PlayNothing(j);
    if !env.authenticated || !env.bootstrapped {
      return false;
    }
    if !env.sessionWritable {
      return false;
    }
    PlayOne(j, SavedSession(SessionOf(env.jar)));
    world.Do(SavedSession(SessionOf(env.jar)));
    var previous := if env.stateReadable then world.journal.docs.state else None;
    if !env.stateWritable {
      return false;
    }
    PlayAppend(j, [SavedSession(SessionOf(env.jar))], [SavedState(TransitionTo(previous, Ready, None, env.now))]);
    world.Do(SavedState(TransitionTo(previous, Ready, None, env.now)));
    return true;
  }
}
