/**
 What the write-if-changed rule of the session persister (api/session_store.py) comes
 to over a whole run: which jar is stored, what `degraded` does and does not mean, and
 how many writes it takes, whatever the service sets and whichever writes fail.
 */
module JarWriting {
  import opened Common
  import opened Protocol

  // ---------------------------------------------------------------------------
  // Digests seen, digests stored
  // ---------------------------------------------------------------------------

  /** The digests of the jar after each answer, and whether saving it then would work. */
  datatype Watch<!D> = Watch(seen: nat -> D, works: nat -> bool)

  /** The persister of a run that begins with the jar that is stored. */
  function Begun<D>(first: D): Persister<D> { Persister(Some(first), false, 0) }

  function Memory<D(==)>(w: Watch<D>, first: D, n: nat): Persister<D> {
    if n == 0 then Begun(first) else Remember(Memory(w, first, n - 1), w.seen(n - 1), w.works(n - 1))
  }

  /** Answer `i` is written: it differs from what is stored, and the store is there. */
  predicate Written<D(==)>(w: Watch<D>, first: D, i: nat)
    decreases i, 1
  {
    Held(w, first, i) != w.seen(i) && w.works(i)
  }

  /** The digest of what the database holds after `n` answers. */
  function Held<D(==)>(w: Watch<D>, first: D, n: nat): D
    decreases n, 0
  {
    if n == 0 then first
    else if Written(w, first, n - 1) then w.seen(n - 1)
    else Held(w, first, n - 1)
  }

  /** The remembered digest is always that of the stored jar. */
  lemma {:induction false} MemoryIsHeld<D>(w: Watch<D>, first: D, n: nat)
    ensures Memory(w, first, n).last == Some(Held(w, first, n))
  {
    if n > 0 {
      MemoryIsHeld(w, first, n - 1);
    }
  }

  /** The last of the first `n` answers that called for a write, if one did. */
  function LastAttempt<D(==)>(w: Watch<D>, first: D, n: nat): Option<nat> {
    if n == 0 then None
    else if Held(w, first, n - 1) != w.seen(n - 1) then Some(n - 1)
    else LastAttempt(w, first, n - 1)
  }

  /** Degraded means exactly that the last write that was attempted failed. */
  lemma {:induction false} DegradedIff<D>(w: Watch<D>, first: D, n: nat)
    ensures Memory(w, first, n).degraded <==>
            LastAttempt(w, first, n).Some? && !w.works(LastAttempt(w, first, n).value)
  {
    if n > 0 {
      DegradedIff(w, first, n - 1);
      MemoryIsHeld(w, first, n - 1);
    }
  }

  /** Not degraded means the store agrees with the jar that was seen last. */
  lemma {:induction false} NotDegradedAgrees<D>(w: Watch<D>, first: D, n: nat)
    requires n > 0 && !Memory(w, first, n).degraded
    ensures Held(w, first, n) == w.seen(n - 1)
  {
    MemoryIsHeld(w, first, n - 1);
  }

  /**
   The other direction is false: when the service takes a change back that could not be
   written, the store agrees with the jar again and the run still calls itself degraded.
   */
  lemma DegradedThoughAgreeing<D>(w: Watch<D>, first: D)
    requires w.seen(0) != first && w.seen(1) == first && !w.works(0)
    ensures Memory(w, first, 2).degraded && Held(w, first, 2) == w.seen(1)
  {
    assert Memory(w, first, 1) == Begun(first).(degraded := true);
    assert Held(w, first, 1) == first;
  }

  lemma WrittenIs<D>(w: Watch<D>, first: D, i: nat)
    ensures Memory(w, first, i + 1).writes == Memory(w, first, i).writes + if Written(w, first, i) then 1 else 0
  {
    MemoryIsHeld(w, first, i);
  }

  /** Exactly when the flag and the truth part: the last write that was attempted failed, and
      a later answer had the stored jar again. */
  lemma DegradedButAgreesIff<D>(w: Watch<D>, first: D, n: nat)
    requires n > 0
    ensures Memory(w, first, n).degraded && Held(w, first, n) == w.seen(n - 1) <==>
            var last := LastAttempt(w, first, n);
            last.Some? && !w.works(last.value) && last.value < n - 1
  {
    DegradedIff(w, first, n);
    LastAttemptIsOne(w, first, n - 1);
  }

  lemma {:induction false} LastAttemptIsOne<D>(w: Watch<D>, first: D, n: nat)
    ensures LastAttempt(w, first, n).Some? ==> LastAttempt(w, first, n).value < n
  {
    if n > 0 {
      LastAttemptIsOne(w, first, n - 1);
    }
  }

  /** How often the stored digest changed. */
  function Changes<D(==)>(w: Watch<D>, first: D, n: nat): nat {
    if n == 0 then 0
    else Changes(w, first, n - 1) + if Held(w, first, n) != Held(w, first, n - 1) then 1 else 0
  }

  /** No write is wasted: there are as many as changes of what is stored. */
  lemma {:induction false} WritesAreChanges<D>(w: Watch<D>, first: D, n: nat)
    ensures Memory(w, first, n).writes == Changes(w, first, n)
  {
    if n > 0 {
      WritesAreChanges(w, first, n - 1);
      WrittenIs(w, first, n - 1);
    }
  }

  // ---------------------------------------------------------------------------
  // The session document
  // ---------------------------------------------------------------------------

  function Seen(env: RunEnv): nat -> Digest { (i: nat) => env.digest(env.jars(i)) }

  function WatchOf(env: RunEnv): Watch<Digest> { Watch(Seen(env), env.jarSaves) }

  /** A hash without collisions: equal exactly for equal material. */
  ghost predicate Faithful(digest: Jar -> Digest) {
    forall a, b :: digest(a) == digest(b) <==> Material(a) == Material(b)
  }

  /** The session in the database after `n` requests, the first jar having the digest `first`. */
  function Stored(env: RunEnv, session: PersistedSession, first: Digest, n: nat): PersistedSession {
    if n == 0 then session
    else if Written(WatchOf(env), first, n - 1) then SessionOf(env.jars(n - 1))
    else Stored(env, session, first, n - 1)
  }

  lemma {:induction false} StoredIsHeld(env: RunEnv, session: PersistedSession, first: Digest, n: nat)
    requires first == env.digest(session.jar)
    ensures env.digest(Stored(env, session, first, n).jar) == Held(WatchOf(env), first, n)
  {
    if n > 0 {
      StoredIsHeld(env, session, first, n - 1);
    }
  }

  /** After its requests, a run remembers what the rule says. */
  lemma {:induction false} RequestsRemember(env: RunEnv, first: Digest, n: nat)
    ensures RequestsMade(env, Begun(first), n).0 == Memory(WatchOf(env), first, n)
  {
    if n > 0 {
      RequestsRemember(env, first, n - 1);
    }
  }

  lemma OneMoreRequest(docs: Documents, before: seq<Event>, k: nat, saved: seq<Event>)
    requires |saved| <= 1
    requires saved == [] || saved[0].SavedSession?
    ensures ApplyAll(docs, before + [Requested(k)] + saved).session ==
            if saved == [] then ApplyAll(docs, before).session else Some(saved[0].session)
  {
    assert (before + [Requested(k)])[..|before|] == before;
    assert ApplyAll(docs, before + [Requested(k)]) == ApplyAll(docs, before);
    if saved == [] {
      assert before + [Requested(k)] + saved == before + [Requested(k)];
    } else {
      assert (before + [Requested(k)] + saved)[..|before| + 1] == before + [Requested(k)];
    }
  }

  /** What one more request adds to the run. */
  lemma RequestsMadeNext(env: RunEnv, first: Digest, n: nat) returns (before: seq<Event>, saved: seq<Event>)
    requires n > 0
    ensures before == RequestsMade(env, Begun(first), n - 1).1
    ensures RequestsMade(env, Begun(first), n).1 == before + [Requested(n - 1)] + saved
    ensures saved == if Written(WatchOf(env), first, n - 1) then [SavedSession(SessionOf(env.jars(n - 1)))] else []
  {
    var p := RequestsMade(env, Begun(first), n - 1);
    before, saved := p.1, Observe(p.0, env.jars(n - 1), env.digest(env.jars(n - 1)), env.jarSaves(n - 1)).1;
    RequestsRemember(env, first, n - 1);
    WrittenIs(WatchOf(env), first, n - 1);
  }

  /** And it has stored what the rule says. */
  lemma {:induction false} RequestsStore(docs: Documents, env: RunEnv, session: PersistedSession, first: Digest, n: nat)
    requires docs.session == Some(session)
    ensures ApplyAll(docs, RequestsMade(env, Begun(first), n).1).session == Some(Stored(env, session, first, n))
  {
    if n > 0 {
      RequestsStore(docs, env, session, first, n - 1);
      var before, saved := RequestsMadeNext(env, first, n);
      OneMoreRequest(docs, before, n - 1, saved);
    }
  }

  lemma {:induction false} NothingNewNothingHeld<D>(w: Watch<D>, first: D, n: nat)
    requires forall i :: 0 <= i < n ==> w.seen(i) == first
    ensures Held(w, first, n) == first
    ensures forall i :: 0 <= i < n ==> !Written(w, first, i)
  {
    if n > 0 {
      NothingNewNothingHeld(w, first, n - 1);
    }
  }

  lemma {:induction false} NothingWritten(env: RunEnv, session: PersistedSession, first: Digest, n: nat)
    requires forall i :: 0 <= i < n ==> !Written(WatchOf(env), first, i)
    ensures Stored(env, session, first, n) == session
  {
    if n > 0 {
      NothingWritten(env, session, first, n - 1);
    }
  }

  /** The expiry of a cookie is no part of the digest: while only that moves, the document
      keeps the moment it was first stored with, and will expire by it. */
  lemma LaterExpiryIsNotWritten(env: RunEnv, session: PersistedSession, n: nat)
    requires Faithful(env.digest)
    requires forall i :: 0 <= i < n ==> Material(env.jars(i)) == Material(session.jar)
    ensures Stored(env, session, env.digest(session.jar), n) == session
  {
    forall i | 0 <= i < n ensures WatchOf(env).seen(i) == env.digest(session.jar) {
      assert Material(env.jars(i)) == Material(session.jar);
    }
    NothingNewNothingHeld(WatchOf(env), env.digest(session.jar), n);
    NothingWritten(env, session, env.digest(session.jar), n);
  }

  /** An answer is written exactly when the names or values of its jar differ from those stored,
      and the store is there: the expiry of a cookie counts for nothing. */
  lemma WrittenIff(env: RunEnv, session: PersistedSession, i: nat)
    requires Faithful(env.digest)
    ensures var first := env.digest(session.jar);
            Written(WatchOf(env), first, i) <==>
            Material(env.jars(i)) != Material(Stored(env, session, first, i).jar) && env.jarSaves(i)
  {
    var first := env.digest(session.jar);
    StoredIsHeld(env, session, first, i);
  }

  /** A run that is not degraded has stored the names and values of the jar it saw last. */
  lemma NotDegradedIsStored(docs: Documents, env: RunEnv, session: PersistedSession, n: nat)
    requires docs.session == Some(session) && n > 0 && Faithful(env.digest)
    requires !RequestsMade(env, Begun(env.digest(session.jar)), n).0.degraded
    ensures var after := ApplyAll(docs, RequestsMade(env, Begun(env.digest(session.jar)), n).1).session;
            after.Some? && Material(after.value.jar) == Material(env.jars(n - 1))
  {
    var first := env.digest(session.jar);
    RequestsStore(docs, env, session, first, n);
    RequestsRemember(env, first, n);
    StoredIsHeld(env, session, first, n);
    NotDegradedAgrees(WatchOf(env), first, n);
  }

  /** A process killed among its requests leaves the session of some earlier moment. */
  lemma {:induction false} KilledLeavesAnEarlierSession(
    docs: Documents, env: RunEnv, session: PersistedSession, first: Digest, n: nat, crash: nat) returns (m: nat)
    requires docs.session == Some(session) && crash <= |RequestsMade(env, Begun(first), n).1|
    ensures m <= n
    ensures ApplyAll(docs, RequestsMade(env, Begun(first), n).1[..crash]).session == Some(Stored(env, session, first, m))
  {
    var all := RequestsMade(env, Begun(first), n).1;
    if n == 0 || crash == |all| {
      assert all[..crash] == all;
      RequestsStore(docs, env, session, first, n);
      return n;
    }
    var before, saved := RequestsMadeNext(env, first, n);
    CutWithinRequest(all, before, n - 1, saved, crash);
    if crash <= |before| {
      m := KilledLeavesAnEarlierSession(docs, env, session, first, n - 1, crash);
    } else {
      OneMoreRequest(docs, before, n - 1, []);
      RequestsStore(docs, env, session, first, n - 1);
      m := n - 1;
    }
  }

  lemma CutWithinRequest(all: seq<Event>, before: seq<Event>, k: nat, saved: seq<Event>, crash: nat)
    requires all == before + [Requested(k)] + saved && |saved| <= 1 && crash < |all|
    ensures all[..crash] == if crash <= |before| then before[..crash] else before + [Requested(k)] + []
  {
  }
}
