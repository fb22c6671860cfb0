/** What the checks inside the transactions protect: a key to sign with is always left, and secrets are never reused. */
module KeyAvailability {
  import opened Wrappers
  import opened KeyRotation
  import opened KeyRotationProofs

  /** Usable at every moment of a stretch of time. */
  ghost predicate UsableThroughout(ring: Ring, id: string, from: int, until: int) {
    forall t | from <= t <= until :: Usable(ring, id, t)
  }

  /** Able to sign during the last five minutes of a key that ends then, when that one no longer can. */
  ghost predicate Succeeds(ring: Ring, other: string, at: int) {
    UsableThroughout(ring, other, at - 5 * MINUTE, at)
  }

  ghost predicate HasSuccessor(ring: Ring, id: string, at: int) {
    exists other | Succeeds(ring, other, at) :: other != id
  }

  lemma SameKeySucceeds(ring: Ring, ring': Ring, other: string, at: int)
    requires Succeeds(ring, other, at) && other in ring && other in ring' && ring[other] == ring'[other]
    ensures Succeeds(ring', other, at)
  {
    forall t | at - 5 * MINUTE <= t <= at
      ensures Usable(ring', other, t)
    {
      assert Usable(ring, other, t);
    }
  }

  /**
   * A retirement commits exactly when it comes with ten minutes' notice, on a key that lasts five minutes before it,
   * and another key is usable throughout the last five.
   */
  lemma RetiresExactly(ring: Ring, id: string, at: int, now: int)
    ensures Retired(ring, id, at, now).Ok? <==>
              && at > now + 10 * MINUTE && id in ring && at > ring[id].activeAt + 5 * MINUTE
              && HasSuccessor(ring, id, at)
  {
    if Replaceable(ring, id, at) {
      var other :| other in ring && other != id && ring[other].activeAt <= at - OVERLAP
                   && ring[other].retireAt > at + OVERLAP;
      assert Succeeds(ring, other, at);
    }
    if HasSuccessor(ring, id, at) {
      var other :| Succeeds(ring, other, at) && other != id;
      assert Usable(ring, other, at - OVERLAP) && Usable(ring, other, at);
    }
  }

  /** And the other key is still there afterwards; only the retired key's end moves. */
  lemma RetirementLeavesSuccessor(ring: Ring, id: string, at: int, now: int)
    requires Retired(ring, id, at, now).Ok?
    ensures HasSuccessor(Retired(ring, id, at, now).value, id, at)
    ensures var ring' := Retired(ring, id, at, now).value;
            && ring'.Keys == ring.Keys && ring'[id] == Key(ring[id].secret, ring[id].activeAt, at)
            && forall other | other in ring && other != id :: ring'[other] == ring[other]
  {
    RetiresExactly(ring, id, at, now);
    var other :| Succeeds(ring, other, at) && other != id;
    assert Usable(ring, other, at);
    SameKeySucceeds(ring, Retired(ring, id, at, now).value, other, at);
  }

  /** An install that commits leaves a key to sign with, holds what was asked, and drops only what is long over. */
  lemma InstallLeavesUsableKey(ring: Ring, id: string, key: Key, now: int)
    requires Installed(ring, id, key, now).Ok?
    ensures var ring' := Installed(ring, id, key, now).value;
            && (exists other :: Usable(ring', other, now))
            && (id in ring' <==> key.retireAt >= now - 10 * MINUTE) && (id in ring' ==> ring'[id] == key)
            && forall other | other != id ::
                 && (other in ring' <==> other in ring && ring[other].retireAt >= now - 10 * MINUTE)
                 && (other in ring' ==> ring'[other] == ring[other])
  {
    var ring' := Installed(ring, id, key, now).value;
    var other :| other in ring' && ring'[other].activeAt <= now && ring'[other].retireAt > now + OVERLAP;
    assert Usable(ring', other, now);
  }

  /** An install is refused exactly for a key without five minutes, a reused name or secret, or no usable key left. */
  lemma InstallsExactly(ring: Ring, id: string, key: Key, now: int)
    ensures Installed(ring, id, key, now).Ok? <==>
              && key.retireAt > key.activeAt + 5 * MINUTE
              && (forall other | other in ring :: other == id <==> ring[other].secret == key.secret)
              && ((Usable(map[id := key], id, now)) || exists other :: other != id && Usable(ring, other, now))
  {
    var ring' := Pruned(ring[id := key], now);
    if Ready(ring', now) {
      var other :| other in ring' && ring'[other].activeAt <= now && ring'[other].retireAt > now + OVERLAP;
      assert other != id ==> Usable(ring, other, now);
    }
    if Usable(map[id := key], id, now) {
      assert id in ring' && ring'[id] == key;
    }
    if other :| other != id && Usable(ring, other, now) {
      assert other in ring' && ring'[other] == ring[other];
    }
  }

  // ---------------------------------------------------------------- over runs

  function RingOf(cells: Cells, side: Side): Ring {
    if side.Verifier? then cells.verifier else cells.signer
  }

  /** The transaction an event commits, if it does. */
  ghost function CommitOf(s: System, e: Event): Option<Step> {
    if e.Transaction? && e.run < |s.runs| && CanStep(s.runs[e.run])
       && Apply(s.cells, Plan(s.runs[e.run].input)[s.runs[e.run].done], s.now).Ok?
    then Some(Plan(s.runs[e.run].input)[s.runs[e.run].done])
    else None
  }

  predicate Touches(commit: Option<Step>, side: Side, id: string) {
    commit.Some? && commit.value.side == side && commit.value.id == id
  }

  /** No committed transaction of the cell is about this key. */
  ghost predicate LeavesAlone(s: System, events: seq<Event>, side: Side, id: string)
    decreases |events|
  {
    events != [] ==>
      && !Touches(CommitOf(s, events[0]), side, id)
      && LeavesAlone(Next(s, events[0]), events[1..], side, id)
  }

  lemma StepKeepsKey(s: System, e: Event, side: Side, id: string)
    requires id in RingOf(s.cells, side) && s.now <= RingOf(s.cells, side)[id].retireAt + DRAIN
    requires !Touches(CommitOf(s, e), side, id)
    ensures var ring' := RingOf(Next(s, e).cells, side); id in ring' && ring'[id] == RingOf(s.cells, side)[id]
    ensures s.now <= Next(s, e).now
  {
    hide Ready, Replaceable, Admitted;
  }

  lemma {:induction false} KeyLasts(s: System, events: seq<Event>, side: Side, id: string)
    requires id in RingOf(s.cells, side) && LeavesAlone(s, events, side, id)
    requires After(s, events).now <= RingOf(s.cells, side)[id].retireAt + DRAIN
    ensures var ring' := RingOf(After(s, events).cells, side);
            id in ring' && ring'[id] == RingOf(s.cells, side)[id]
    decreases |events|
  {
    hide Next, CommitOf;
    if events != [] {
      ClockGoesOn(Next(s, events[0]), events[1..]);
      StepForward(s, events[0]);
      StepKeepsKey(s, events[0], side, id);
      KeyLasts(Next(s, events[0]), events[1..], side, id);
    }
  }

  lemma StepForward(s: System, e: Event)
    ensures s.now <= Next(s, e).now
  {
    hide Admitted, Apply;
  }

  lemma {:induction false} ClockGoesOn(s: System, events: seq<Event>)
    ensures s.now <= After(s, events).now
    decreases |events|
  {
    hide Next;
    if events != [] {
      StepForward(s, events[0]);
      ClockGoesOn(Next(s, events[0]), events[1..]);
    }
  }

  /**
   * Whatever runs do after a committed retirement: up to its time the cell holds a successor that is usable throughout
   * the retired key's last five minutes, as long as no later transaction there is about that successor.
   */
  lemma RetirementKeepsSigning(s: System, e: Event) returns (other: string)
    requires CommitOf(s, e).Some? && CommitOf(s, e).value.Retire?
    ensures var step, t := CommitOf(s, e).value, Next(s, e);
            && other != step.id && Succeeds(RingOf(t.cells, step.side), other, step.at)
            && forall events | LeavesAlone(t, events, step.side, other) && After(t, events).now <= step.at ::
                 Succeeds(RingOf(After(t, events).cells, step.side), other, step.at)
  {
    var step, t := CommitOf(s, e).value, Next(s, e);
    var ring := RingOf(s.cells, step.side);
    assert Retired(ring, step.id, step.at, s.now) == Ok(RingOf(t.cells, step.side));
    RetirementLeavesSuccessor(ring, step.id, step.at, s.now);
    hide Next, CommitOf, Retired;
    var ring' := RingOf(t.cells, step.side);
    other :| Succeeds(ring', other, step.at) && other != step.id;
    assert Usable(ring', other, step.at);
    forall events | LeavesAlone(t, events, step.side, other) && After(t, events).now <= step.at
      ensures Succeeds(RingOf(After(t, events).cells, step.side), other, step.at)
    {
      KeyLasts(t, events, step.side, other);
      SameKeySucceeds(ring', RingOf(After(t, events).cells, step.side), other, step.at);
    }
  }

  /** A usable key signs any token asked to last more than two seconds, for five minutes at most, in whole seconds. */
  lemma UsableKeySigns(signer: Ring, id: string, until: int, now: int)
    requires Usable(signer, id, now)
    ensures var token := Signed(signer, id, until, now);
            && (token.Some? <==> until > now + 2 * SECOND)
            && (token.Some? ==>
                  && token.value.id == id && token.value.secret == signer[id].secret
                  && token.value.issued * SECOND <= now < (token.value.issued + 1) * SECOND
                  && token.value.expires * SECOND <= until && token.value.expires * SECOND <= now + 5 * MINUTE
                  && (until < (token.value.expires + 1) * SECOND
                      || now + 5 * MINUTE < (token.value.expires + 1) * SECOND))
  {
  }

  // ---------------------------------------------------------------- secrets

  ghost predicate SecretsApart(ring: Ring) {
    forall a, b | a in ring && b in ring && ring[a].secret == ring[b].secret :: a == b
  }

  /** A transaction that commits keeps different keys' secrets different, and every key's secret its own. */
  lemma SecretsStayApart(ring: Ring, step: Step, now: int)
    requires SecretsApart(ring) && Committed(ring, step, now).Ok?
    ensures var ring' := Committed(ring, step, now).value;
            SecretsApart(ring') && forall id | id in ring && id in ring' :: ring'[id].secret == ring[id].secret
  {
    hide Ready, Replaceable;
  }

  // ---------------------------------------------------------------- what is accepted

  /** A token is accepted from five seconds before its issue until it expires, if it lasts at most 301 seconds. */
  lemma AcceptsExactly(verifier: Ring, token: Token, now: int)
    requires token.id in verifier && verifier[token.id].secret == token.secret
    requires verifier[token.id].activeAt <= token.issued * 1_000_000
    requires token.expires * 1_000_000 <= verifier[token.id].retireAt
    ensures Accepts(verifier, token, now) <==>
              && token.issued - 5 <= now / 1_000_000 < token.expires
              && 1 <= token.expires - token.issued <= 301
  {
  }

  /** Never one of an unknown key, of another secret, or reaching out of the key's time. */
  lemma AcceptsOnlyItsKey(verifier: Ring, token: Token, now: int)
    requires Accepts(verifier, token, now)
    ensures token.id in verifier && verifier[token.id].secret == token.secret
    ensures verifier[token.id].activeAt <= token.issued * 1_000_000
    ensures token.expires * 1_000_000 <= verifier[token.id].retireAt
  {
  }

  lemma Clocks()
    ensures MINUTE == 60 * 1_000_000 && SECOND == 1_000_000
  {
  }
}
