/** Who is promised a newer credential, and what each careless step costs. */
module CredentialLosses {
  import opened Wrappers
  import opened CredentialRefresh

  // ---------------------------------------------------------------- runs given by their states

  /** Each event leads from one state to the next, and is careful. */
  ghost predicate Path(events: seq<Event>, states: seq<State>) {
    && |states| == |events| + 1
    && forall i | 0 <= i < |events| ::
         Enabled(states[i], events[i]) && Careful(states[i], events[i]) && Apply(states[i], events[i]) == states[i + 1]
  }

  lemma {:induction false} RunOf(events: seq<Event>, states: seq<State>)
    requires Path(events, states)
    ensures Legal(states[0], events) && CarefulRun(states[0], events)
    ensures Exec(states[0], events) == states[|events|]
    decreases |events|
  {
    hide Enabled, Careful, Apply;
    if events != [] {
      RunOf(events[1..], states[1..]);
    }
  }

  // ---------------------------------------------------------------- who is promised a newer credential

  ghost predicate PromisedNewer(from: nat, flightFrom: nat) {
    forall s, events, credential |
      Start(s) && Legal(s, events) && CarefulRun(s, events)
      && Returned(from, flightFrom, Some(credential)) in Exec(s, events).returned ::
      from < credential.revision
  }

  /**
   * A call that starts its own flight always gets a newer revision. A call that joins a pending flight is
   * promised one exactly when it did not already start from a newer revision than the flight did: joining is
   * by credential reference alone, so a late joiner can be handed the very revision it wanted replaced.
   */
  lemma NewerExactlyWhenNotAhead(from: nat, flightFrom: nat)
    ensures PromisedNewer(from, flightFrom) <==> from <= flightFrom
  {
    if from <= flightFrom {
      forall s, events, credential |
        Start(s) && Legal(s, events) && CarefulRun(s, events)
        && Returned(from, flightFrom, Some(credential)) in Exec(s, events).returned
        ensures from < credential.revision
      {
        RefreshIsSafe(s, events);
      }
    } else {
      LateJoinerGetsItsOwnRevision(from, flightFrom);
    }
  }

  function Fresh(revision: nat): State {
    State(Credential(revision, 0), 0, None, map[], map[], [], 5, [], {})
  }

  lemma LateJoinerGetsItsOwnRevision(from: nat, flightFrom: nat)
    requires flightFrom < from
    ensures !PromisedNewer(from, flightFrom)
  {
    var s := Fresh(from);
    EarlyFlightSettles(from, flightFrom);
    var t := Exec(s, [Call(0, flightFrom), Grant(0), Read(0)]);
    JoinerGetsIt(t, from, flightFrom);
    var opening, joining := [Call(0, flightFrom), Grant(0), Read(0)], [Call(0, from), Release(0, true)];
    hide Enabled, Apply, Careful;
    ComposeCareful(s, opening, joining);
  }

  lemma EarlyFlightSettles(from: nat, flightFrom: nat)
    requires flightFrom < from
    ensures var events := [Call(0, flightFrom), Grant(0), Read(0)];
            && Legal(Fresh(from), events) && CarefulRun(Fresh(from), events)
            && Exec(Fresh(from), events) ==
                 Fresh(from).(lease := Some(0),
                              flights := map[0 := Flight(Settled(Some(Credential(from, 0))), flightFrom, [flightFrom])])
  {
    var s0 := Fresh(from);
    var s1 := s0.(flights := map[0 := Flight(Waiting, flightFrom, [flightFrom])]);
    var s2 := s1.(flights := map[0 := Flight(Leased, flightFrom, [flightFrom])], lease := Some(0));
    var s3 := s2.(flights := map[0 := Flight(Settled(Some(s0.vault)), flightFrom, [flightFrom])]);
    assert Apply(s0, Call(0, flightFrom)) == s1 && Apply(s1, Grant(0)) == s2 && Apply(s2, Read(0)) == s3;
    RunOf([Call(0, flightFrom), Grant(0), Read(0)], [s0, s1, s2, s3]);
  }

  lemma JoinerGetsIt(t: State, from: nat, flightFrom: nat)
    requires 0 in t.flights && t.flights[0] == Flight(Settled(Some(t.vault)), flightFrom, [flightFrom])
    requires t.vault.revision == from
    ensures var events := [Call(0, from), Release(0, true)];
            && Legal(t, events) && CarefulRun(t, events)
            && Returned(from, flightFrom, Some(t.vault)) in Exec(t, events).returned
  {
    var t1 := Apply(t, Call(0, from));
    var t2 := Apply(t1, Release(0, true));
    assert t1.flights[0].callers[1] == from;
    RunOf([Call(0, from), Release(0, true)], [t, t1, t2]);
  }

  lemma {:induction false} ComposeCareful(s: State, a: seq<Event>, b: seq<Event>)
    requires Legal(s, a) && CarefulRun(s, a) && Legal(Exec(s, a), b) && CarefulRun(Exec(s, a), b)
    ensures Legal(s, a + b) && CarefulRun(s, a + b) && Exec(s, a + b) == Exec(Exec(s, a), b)
    decreases |a|
  {
    hide Enabled, Apply, Careful;
    if a == [] {
      assert a + b == b;
    } else {
      assert (a + b)[1..] == a[1..] + b;
      ComposeCareful(Apply(s, a[0]), a[1..], b);
    }
  }

  // ---------------------------------------------------------------- exactly which steps break the promises

  /** Everything promised holds at the end of every careful run from here. */
  ghost predicate SafeFromHere(t: State) {
    forall events | Legal(t, events) && CarefulRun(t, events) :: Promises(Exec(t, events))
  }

  ghost predicate Breaks(t: State, events: seq<Event>) {
    Legal(t, events) && CarefulRun(t, events) && !Promises(Exec(t, events))
  }

  lemma BreaksOneStepOn(t: State, e: Event, events: seq<Event>)
    requires Enabled(t, e) && Careful(t, e) && Breaks(Apply(t, e), events)
    ensures Breaks(t, [e] + events)
  {
    hide Enabled, Careful, Apply, Promises;
    assert ([e] + events)[1..] == events;
  }

  /** A token other than the vault's is live, and nobody who could store it holds the lease. */
  predicate OutOfStep(t: State) {
    t.vault.token != t.live && !MidExchange(t)
  }

  lemma OutOfStepBreaks(t: State)
    requires OutOfStep(t)
    ensures Breaks(t, [])
  {
    hide MidExchange;
  }

  /** Losing what was redeemed. */
  lemma LosingRotatedBreaks(s: State, e: Event)
    requires Invariant(s) && Enabled(s, e) && (e.Crash? || e.GiveUp? || e.LoseAnswer?) && Rotated(s, e.p)
    ensures OutOfStep(Apply(s, e))
  {
    assert FlightOk(s, e.p, s.flights[e.p]);
    assert e.p in s.cut ==> CutOk(s, e.p, s.cut[e.p]);
  }

  /** Cutting off its swap, which then comes too late. */
  lemma CutOffBreaks(s: State, p: nat)
    requires Invariant(s) && Enabled(s, CutOff(p)) && Rotated(s, p)
    ensures Breaks(Apply(s, CutOff(p)), [Release(p, true)])
  {
    assert FlightOk(s, p, s.flights[p]);
    var t := Apply(s, CutOff(p));
    assert OutOfStep(Apply(t, Release(p, true)));
    OutOfStepBreaks(Apply(t, Release(p, true)));
    BreaksOneStepOn(t, Release(p, true), []);
    assert [Release(p, true)] + [] == [Release(p, true)];
  }

  lemma TravellingIsInStep(s: State, p: nat)
    requires Invariant(s) && p in s.flights && s.lease == Some(p)
    requires s.flights[p].phase.Leased? || s.flights[p].phase.Checked? || s.flights[p].phase.Travelling?
    ensures s.vault.token == s.live && p !in s.cut
  {
    assert FlightOk(s, p, s.flights[p]);
    assert p in s.cut ==> CutOk(s, p, s.cut[p]);
  }

  /** Abandoning a request that is then redeemed after all. */
  lemma AbandoningBreaks(s: State, e: Event)
    requires Invariant(s) && Enabled(s, e) && (e.Crash? || e.GiveUp? || e.TimeOut?) && OnTheWay(s, e.p)
    ensures Breaks(Apply(s, e), [Stray(0, true)])
  {
    assert FlightOk(s, e.p, s.flights[e.p]);
    TravellingIsInStep(s, e.p);
    var t := Apply(s, e);
    assert t.strays == [s.vault.token];
    assert OutOfStep(Apply(t, Stray(0, true)));
    OutOfStepBreaks(Apply(t, Stray(0, true)));
    BreaksOneStepOn(t, Stray(0, true), []);
    assert [Stray(0, true)] + [] == [Stray(0, true)];
  }

  /** Redeeming without the lease. */
  lemma UnleasedRequestBreaks(t: State, p: nat)
    requires p in t.flights && t.flights[p].phase.Travelling? &&
               t.flights[p].phase.read.token == t.live == t.vault.token
    requires t.lease.None?
    ensures Breaks(t, [Redeem(p, true)])
  {
    assert OutOfStep(Apply(t, Redeem(p, true)));
    OutOfStepBreaks(Apply(t, Redeem(p, true)));
    BreaksOneStepOn(t, Redeem(p, true), []);
    assert [Redeem(p, true)] + [] == [Redeem(p, true)];
  }

  lemma UnleasedCheckBreaks(t: State, p: nat)
    requires p in t.flights && t.flights[p].phase.Checked? && t.flights[p].phase.read.token == t.live == t.vault.token
    requires t.lease.None?
    ensures exists events :: Breaks(t, events)
  {
    UnleasedRequestBreaks(Apply(t, Send(p)), p);
    BreaksOneStepOn(t, Send(p), [Redeem(p, true)]);
  }

  lemma UnleasedReadBreaks(t: State, p: nat)
    requires p in t.flights && t.flights[p].phase.Leased? && t.flights[p].from == t.vault.revision
    requires t.live == t.vault.token && t.lease.None?
    ensures exists events :: Breaks(t, events)
  {
    UnleasedCheckBreaks(Apply(t, Read(p)), p);
    var events :| Breaks(Apply(t, Read(p)), events);
    BreaksOneStepOn(t, Read(p), events);
  }

  /** A swap without the lease fails, and hands out the very revision that was to be replaced. */
  lemma UnleasedSwapBreaks(t: State, p: nat)
    requires p in t.flights && t.flights[p].phase.Exchanged? && t.flights[p].from == t.vault.revision
    requires t.flights[p].from in t.flights[p].callers && t.lease.None?
    ensures exists events :: Breaks(t, events)
  {
    var t1 := Apply(t, Swap(p, true));
    var t2 := Apply(t1, Release(p, true));
    var from := t.flights[p].from;
    assert Returned(from, from, Some(t.vault)) in t2.returned;
    assert !NewerOnly(t2);
    assert Breaks(t2, []);
    BreaksOneStepOn(t1, Release(p, true), []);
    BreaksOneStepOn(t, Swap(p, true), [Release(p, true)] + []);
  }

  lemma UnleasedAnswerBreaks(t: State, p: nat)
    requires p in t.flights && t.flights[p].phase.Answering? && t.flights[p].phase.answer.Some?
    requires t.flights[p].from == t.vault.revision && t.flights[p].from in t.flights[p].callers && t.lease.None?
    ensures exists events :: Breaks(t, events)
  {
    UnleasedSwapBreaks(Apply(t, Answer(p)), p);
    var events :| Breaks(Apply(t, Answer(p)), events);
    BreaksOneStepOn(t, Answer(p), events);
  }

  lemma ExpiryBreaks(s: State)
    requires Invariant(s) && Enabled(s, Expire) && NeedsLease(s, s.lease.value)
    ensures exists events :: Breaks(Apply(s, Expire), events)
  {
    var p, t := s.lease.value, Apply(s, Expire);
    assert FlightOk(s, p, s.flights[p]);
    var phase := s.flights[p].phase;
    if phase.Answering? {
      UnleasedAnswerBreaks(t, p);
    } else if phase.Exchanged? {
      UnleasedSwapBreaks(t, p);
    } else {
      TravellingIsInStep(s, p);
      if phase.Leased? {
        UnleasedReadBreaks(t, p);
      } else if phase.Checked? {
        UnleasedCheckBreaks(t, p);
      } else {
        UnleasedRequestBreaks(t, p);
      }
    }
  }

  lemma CarelessStepBreaks(s: State, e: Event)
    requires Invariant(s) && Enabled(s, e) && !Careful(s, e)
    ensures exists events :: Breaks(Apply(s, e), events)
  {
    hide Invariant, Breaks;
    if e.Expire? {
      ExpiryBreaks(s);
    } else if e.CutOff? {
      CutOffBreaks(s, e.p);
    } else if e.TimeOut? || OnTheWay(s, e.p) {
      AbandoningBreaks(s, e);
    } else {
      LosingRotatedBreaks(s, e);
      OutOfStepBreaks(Apply(s, e));
    }
  }

  /**
   * Careful steps are exactly the safe ones: from a safe state a step leaves every careful continuation safe if and
   * only if it neither loses, rejects nor abandons what was redeemed, nor abandons a request on its way, nor takes
   * the lease from a holder that needs it.
   */
  lemma CarefulExactly(s: State, e: Event)
    requires Invariant(s) && Enabled(s, e)
    ensures Careful(s, e) <==> SafeFromHere(Apply(s, e))
  {
    hide Invariant, Careful, Apply, Promises, Enabled;
    var t := Apply(s, e);
    if Careful(s, e) {
      StepKeepsInvariant(s, e);
      forall events | Legal(t, events) && CarefulRun(t, events)
        ensures Promises(Exec(t, events))
      {
        RunKeepsInvariant(t, events);
        InvariantPromises(Exec(t, events));
      }
    } else {
      CarelessStepBreaks(s, e);
      var events :| Breaks(t, events);
      assert CarefulRun(t, events);
    }
  }

  // ---------------------------------------------------------------- stranded credentials

  /** The vault holds a redeemed token, and nobody is left who could still store the live one. */
  predicate Stranded(s: State) {
    && s.vault.token < s.live
    && (forall p | p in s.flights :: StrandedFlight(s, p, s.flights[p].phase))
    && (forall p | p in s.cut :: s.lease != Some(p))
    && (forall token | token in s.strays :: token < s.live)
  }

  predicate StrandedFlight(s: State, p: nat, phase: Phase) {
    && (Mid(phase) ==> s.lease != Some(p))
    && (phase.Checked? || phase.Travelling? || phase.Answering? ==> phase.read.token < s.live)
  }

  /** The step loses, rejects or abandons a redeemed token's replacement, or takes the lease that protects it. */
  predicate LosesReplacement(s: State, e: Event) {
    match e
    case Crash(p) => Rotated(s, p)
    case GiveUp(p) => Rotated(s, p)
    case LoseAnswer(p) => Rotated(s, p)
    case Expire => s.lease.Some? && Rotated(s, s.lease.value)
    case _ => false
  }

  /** From a safe state one step strands the credential exactly when it loses the replacement of a redeemed token. */
  lemma StrandingStep(s: State, e: Event)
    requires Invariant(s) && Enabled(s, e) && s.vault.token <= s.live
    ensures Stranded(Apply(s, e)) <==> LosesReplacement(s, e)
  {
    if LosesReplacement(s, e) {
      LossStrands(s, e);
    } else if Careful(s, e) {
      StepKeepsInvariant(s, e);
      SafeIsNotStranded(Apply(s, e));
    } else {
      DelayedLossIsNotYet(s, e);
    }
  }

  lemma LossStrands(s: State, e: Event)
    requires Invariant(s) && Enabled(s, e) && s.vault.token <= s.live && LosesReplacement(s, e)
    ensures Stranded(Apply(s, e))
  {
    var t := Apply(s, e);
    forall p | p in t.flights
      ensures StrandedFlight(t, p, t.flights[p].phase)
    {
      assert FlightOk(s, p, s.flights[p]);
    }
    forall p | p in t.cut
      ensures t.lease != Some(p)
    {
      assert CutOk(s, p, s.cut[p]);
    }
    var victim := if e.Expire? then s.lease.value else e.p;
    assert FlightOk(s, victim, s.flights[victim]);
  }

  lemma SafeIsNotStranded(s: State)
    requires Invariant(s)
    ensures !Stranded(s)
  {
    if MidExchange(s) {
      var p := s.lease.value;
      assert p in s.flights ==> FlightOk(s, p, s.flights[p]);
      assert p in s.cut ==> CutOk(s, p, s.cut[p]);
    }
  }

  /** Cutting off a swap, abandoning a request, or an expiry before redemption leaves a chance. */
  lemma DelayedLossIsNotYet(s: State, e: Event)
    requires Invariant(s) && Enabled(s, e) && !Careful(s, e) && !LosesReplacement(s, e)
    ensures !Stranded(Apply(s, e))
  {
    var t := Apply(s, e);
    var victim := if e.Expire? then s.lease.value else e.p;
    assert FlightOk(s, victim, s.flights[victim]);
    assert victim in s.cut ==> CutOk(s, victim, s.cut[victim]);
    if e.CutOff? {
      assert victim in t.cut && t.lease == Some(victim);
    }
  }

  /** Neither sending, waiting for the vendor, nor about to swap. */
  predicate Idle(phase: Phase) {
    phase.Waiting? || phase.Leased? || phase.Settled?
  }

  /** A cut-off swap lands and all is well, or the lease goes first and the credential is stranded. */
  lemma CutOffDecides(s: State, p: nat)
    requires Invariant(s) && Enabled(s, CutOff(p)) && Rotated(s, p) && s.vault.token <= s.live
    ensures var t := Apply(s, CutOff(p));
            && Enabled(t, Land(p)) && Apply(t, Land(p)).vault.token == s.live
            && Enabled(t, Release(p, true)) && Stranded(Apply(t, Release(p, true)))
            && Enabled(t, Expire) && Stranded(Apply(t, Expire))
  {
    CutSwapMayLand(s, p);
    CutLeavesOthersIdle(s, p);
    LosingTheLeaseStrands(Apply(s, CutOff(p)), p);
  }

  lemma CutSwapMayLand(s: State, p: nat)
    requires Invariant(s) && Enabled(s, CutOff(p)) && Rotated(s, p)
    ensures Enabled(Apply(s, CutOff(p)), Land(p)) && Apply(Apply(s, CutOff(p)), Land(p)).vault.token == s.live
  {
    assert FlightOk(s, p, s.flights[p]);
  }

  lemma CutLeavesOthersIdle(s: State, p: nat)
    requires Invariant(s) && Enabled(s, CutOff(p)) && Rotated(s, p) && s.vault.token <= s.live
    ensures var t := Apply(s, CutOff(p));
            && t.lease == Some(p) && t.vault.token < t.live && t.strays == []
            && p in t.flights && t.flights[p].phase.Settled?
            && forall q | q in t.flights :: Idle(t.flights[q].phase)
  {
    NobodyElseHolds(s, p);
  }

  lemma LosingTheLeaseStrands(t: State, p: nat)
    requires t.lease == Some(p) && t.vault.token < t.live && t.strays == []
    requires p in t.flights && t.flights[p].phase.Settled?
    requires forall q | q in t.flights :: Idle(t.flights[q].phase)
    ensures Enabled(t, Release(p, true)) && Stranded(Apply(t, Release(p, true)))
    ensures Enabled(t, Expire) && Stranded(Apply(t, Expire))
  {
    hide Stranded;
    UnleasedIsStranded(Apply(t, Release(p, true)));
    UnleasedIsStranded(Apply(t, Expire));
  }

  /** With p between redemption and swap, nobody else is, and nobody has read the live token. */
  lemma NobodyElseHolds(s: State, p: nat)
    requires Invariant(s) && p in s.flights && Mid(s.flights[p].phase) && Rotated(s, p) && s.vault.token <= s.live
    ensures s.vault.token < s.live && s.strays == [] && s.lease == Some(p)
    ensures forall q | q in s.flights && q != p :: Idle(s.flights[q].phase)
  {
    assert FlightOk(s, p, s.flights[p]);
    forall q | q in s.flights && q != p
      ensures Idle(s.flights[q].phase)
    {
      assert FlightOk(s, q, s.flights[q]);
    }
  }

  lemma UnleasedIsStranded(t: State)
    requires t.lease.None? && t.vault.token < t.live && t.strays == []
    requires forall q | q in t.flights :: Idle(t.flights[q].phase)
    ensures Stranded(t)
  {
  }

  /** A stranded vault and the live token no longer move, and the vendor refuses whatever it sees. */
  lemma StrandedIsStuck(s: State, e: Event)
    requires Stranded(s) && Enabled(s, e)
    ensures var t := Apply(s, e);
            && t.vault == s.vault && t.live == s.live
            && (t.presented == s.presented ||
                exists token: Token :: token < s.live && t.presented == s.presented + [Presentation(token, s.live)])
  {
    if e.Swap? || e.Redeem? {
      assert StrandedFlight(s, e.p, s.flights[e.p].phase);
    } else if e.Stray? {
      assert s.strays[e.i] in s.strays;
    }
  }

  lemma StrandedFlightsStay(s: State, e: Event, p: nat)
    requires Stranded(s) && Enabled(s, e) && p in Apply(s, e).flights
    ensures StrandedFlight(Apply(s, e), p, Apply(s, e).flights[p].phase)
  {
    StrandedIsStuck(s, e);
    assert p in s.flights ==> StrandedFlight(s, p, s.flights[p].phase);
  }

  lemma StrandedStraysStay(s: State, e: Event)
    requires Stranded(s) && Enabled(s, e)
    ensures forall token | token in Apply(s, e).strays :: token < s.live
    ensures forall p | p in Apply(s, e).cut :: Apply(s, e).lease != Some(p)
  {
    if e.Stray? {
      assert Apply(s, e).strays == s.strays[..e.i] + s.strays[e.i + 1..];
      assert forall token | token in s.strays[..e.i] || token in s.strays[e.i + 1..] :: token in s.strays;
    } else if e.TimeOut? || e.GiveUp? || e.Crash? || e.CutOff? {
      assert StrandedFlight(s, e.p, s.flights[e.p].phase);
      assert forall token | token in LeftBehind(s.flights[e.p].phase) :: token < s.live;
    }
  }

  lemma StrandedStays(s: State, e: Event)
    requires Stranded(s) && Enabled(s, e)
    ensures var t := Apply(s, e);
            && Stranded(t) && t.vault == s.vault && t.live == s.live && s.presented <= t.presented
            && forall i | |s.presented| <= i < |t.presented| :: t.presented[i].token < t.presented[i].live
  {
    hide Apply, Enabled, StrandedFlight;
    StrandedIsStuck(s, e);
    StrandedStraysStay(s, e);
    forall p | p in Apply(s, e).flights
      ensures StrandedFlight(Apply(s, e), p, Apply(s, e).flights[p].phase)
    {
      StrandedFlightsStay(s, e, p);
    }
  }

  /**
   * And then for good: whatever happens next, the vault keeps the redeemed token and every later request
   * presents a redeemed token, which the vendor refuses.
   */
  lemma {:induction false} StrandedForever(s: State, events: seq<Event>)
    requires Stranded(s) && Legal(s, events)
    ensures var end := Exec(s, events);
            && Stranded(end)
            && end.vault == s.vault
            && s.presented <= end.presented
            && forall i | |s.presented| <= i < |end.presented| :: end.presented[i].token < end.presented[i].live
    decreases |events|
  {
    hide Stranded, Enabled, Apply;
    if events != [] {
      StrandedStays(s, events[0]);
      StrandedForever(Apply(s, events[0]), events[1..]);
    }
  }

  // ---------------------------------------------------------------- replays

  /** A refresh under way alone, its first request on its way. */
  function Underway(s: State, p: nat): State {
    s.(lease := Some(p),
       flights := s.flights[p := Flight(Travelling(s.vault, 0), s.vault.revision, [s.vault.revision])])
  }

  function Opening(p: nat, revision: nat): seq<Event> {
    [Call(p, revision), Grant(p), Read(p), Send(p)]
  }

  lemma OpeningSends(s: State, p: nat)
    requires p !in s.flights && s.lease.None? && s.cut == map[]
    ensures Legal(s, Opening(p, s.vault.revision))
    ensures Exec(s, Opening(p, s.vault.revision)) == Underway(s, p)
  {
    var revision := s.vault.revision;
    var s1 := Apply(s, Call(p, revision));
    var s2 := Apply(s1, Grant(p));
    var s3 := Apply(s2, Read(p));
    var s4 := Apply(s3, Send(p));
    assert s4.flights == Underway(s, p).flights && s4.cut == map[];
    LegalByStates(s, Opening(p, revision), [s, s1, s2, s3, s4]);
  }

  /** The vendor has redeemed the token that is on its way for the next one. */
  function Redeemed(s: State, p: nat): State {
    s.(lease := Some(p), live := s.live + 1, presented := s.presented + [Presentation(s.live, s.live)],
       flights := s.flights[p := Flight(Answering(s.vault, 0, Some(s.live + 1)), s.vault.revision, [s.vault.revision])])
  }

  lemma UnderwayRedeems(s: State, p: nat)
    requires s.vault.token == s.live
    ensures Enabled(Underway(s, p), Redeem(p, true)) && Apply(Underway(s, p), Redeem(p, true)) == Redeemed(s, p)
  {
    assert Apply(Underway(s, p), Redeem(p, true)).flights == Redeemed(s, p).flights;
  }

  lemma OneStepOn(s: State, e: Event, rest: seq<Event>)
    requires Enabled(s, e) && Legal(Apply(s, e), rest)
    ensures Legal(s, [e] + rest) && Exec(s, [e] + rest) == Exec(Apply(s, e), rest)
  {
    hide Enabled, Apply;
    assert ([e] + rest)[1..] == rest;
  }

  lemma ResendReplays(s: State, p: nat)
    requires s.attempts >= 2 && s.vault.token == s.live
    ensures var events := [LoseAnswer(p), Send(p), Redeem(p, true)];
            Legal(Redeemed(s, p), events) && !NoReplay(Exec(Redeemed(s, p), events))
  {
    var s0 := Redeemed(s, p);
    var s1 := Apply(s0, LoseAnswer(p));
    var s2 := Apply(s1, Send(p));
    var s3 := Apply(s2, Redeem(p, true));
    LegalByStates(s0, [LoseAnswer(p), Send(p), Redeem(p, true)], [s0, s1, s2, s3]);
    assert s3.presented[|s.presented| + 1].live == s.live + 1;
    assert s.vault.token == s3.presented[|s.presented| + 1].token;
  }

  /**
   * One replica, no crash and no lost lease: the answer to a redeemed request is lost, the attempt is repeated as
   * configured, and the token that was redeemed is presented again.
   */
  lemma LostAnswerReplays(s: State, p: nat)
    requires Start(s) && s.attempts >= 2
    ensures var events := Opening(p, s.vault.revision) +
              ([Redeem(p, true)] + [LoseAnswer(p), Send(p), Redeem(p, true)]);
            Legal(s, events) && !NoReplay(Exec(s, events))
  {
    hide Enabled, Apply, NoReplay, Opening, Underway, Redeemed;
    var resend := [LoseAnswer(p), Send(p), Redeem(p, true)];
    OpeningSends(s, p);
    UnderwayRedeems(s, p);
    ResendReplays(s, p);
    OneStepOn(Underway(s, p), Redeem(p, true), resend);
    Compose(s, Opening(p, s.vault.revision), [Redeem(p, true)] + resend);
  }

  /** Without a resend the same loss still leaves the vault behind, and nobody mid-exchange. */
  lemma RejectedAnswerStrands(s: State, p: nat)
    requires Start(s)
    ensures var events := Opening(p, s.vault.revision) + ([Redeem(p, true)] + [GiveUp(p)]);
            Legal(s, events) && Stranded(Exec(s, events))
  {
    RejectionStrands(s, p);
    hide Enabled, Apply, Opening, Underway, Redeemed, Stranded;
    OpeningSends(s, p);
    UnderwayRedeems(s, p);
    OneStepOn(Underway(s, p), Redeem(p, true), [GiveUp(p)]);
    Compose(s, Opening(p, s.vault.revision), [Redeem(p, true)] + [GiveUp(p)]);
  }

  lemma RejectionStrands(s: State, p: nat)
    requires Start(s)
    ensures Legal(Redeemed(s, p), [GiveUp(p)]) && Stranded(Exec(Redeemed(s, p), [GiveUp(p)]))
  {
    LegalByStates(Redeemed(s, p), [GiveUp(p)], [Redeemed(s, p), Apply(Redeemed(s, p), GiveUp(p))]);
  }

  /** Two requests on their way with the live token: the second one to arrive finds it redeemed. */
  lemma SecondArrivalReplays(s: State, p: nat, q: nat)
    requires p in s.flights && q in s.flights && p != q
    requires s.flights[p].phase.Travelling? && s.flights[q].phase.Travelling?
    requires s.flights[p].phase.read.token == s.flights[q].phase.read.token == s.live
    ensures var events := [Redeem(p, true), Redeem(q, true)];
            Legal(s, events) && !NoReplay(Exec(s, events))
  {
    var s1 := Apply(s, Redeem(p, true));
    var s2 := Apply(s1, Redeem(q, true));
    LegalByStates(s, [Redeem(p, true), Redeem(q, true)], [s, s1, s2]);
    assert s2.presented[|s.presented| + 1] == Presentation(s.live, s.live + 1);
  }

  lemma BothSend(s: State, p: nat, q: nat)
    requires p in s.flights && q in s.flights && p != q
    requires s.flights[p].phase == Checked(s.vault, 0) == s.flights[q].phase
    ensures Legal(s, [Send(p), Send(q)])
    ensures var t := Exec(s, [Send(p), Send(q)]);
            && t.live == s.live && p in t.flights && q in t.flights
            && t.flights[p].phase == Travelling(s.vault, 0) == t.flights[q].phase
  {
    var s1 := Apply(s, Send(p));
    LegalByStates(s, [Send(p), Send(q)], [s, s1, Apply(s1, Send(q))]);
  }

  /** Two replicas that both passed the revision check present the same token, the second one after its redemption. */
  lemma TwoCheckedReplay(s: State, p: nat, q: nat)
    requires p in s.flights && q in s.flights && p != q
    requires s.flights[p].phase == Checked(s.vault, 0) == s.flights[q].phase && s.vault.token == s.live
    ensures var events := [Send(p), Send(q)] + [Redeem(p, true), Redeem(q, true)];
            Legal(s, events) && !NoReplay(Exec(s, events))
  {
    hide Enabled, Apply, NoReplay, Legal, Exec;
    BothSend(s, p, q);
    SecondArrivalReplays(Exec(s, [Send(p), Send(q)]), p, q);
    Compose(s, [Send(p), Send(q)], [Redeem(p, true), Redeem(q, true)]);
  }

  lemma ExpiryFreesTheLease(s: State, p: nat)
    requires p !in s.flights && s.cut == map[]
    ensures Legal(Underway(s, p), [Expire])
    ensures var t := Exec(Underway(s, p), [Expire]);
            && t.lease.None? && t.flights == Underway(s, p).flights && t.cut == map[]
            && t.vault == s.vault && t.live == s.live
  {
    LegalByStates(Underway(s, p), [Expire], [Underway(s, p), Apply(Underway(s, p), Expire)]);
  }

  /** So an expiry under a holder that has only sent its request is enough for a replay. */
  lemma ExpiryUnderHolderReplays(s: State, p: nat, q: nat)
    requires Start(s) && p != q
    ensures var events := Opening(p, s.vault.revision) +
              ([Expire] + (Opening(q, s.vault.revision) + [Redeem(p, true), Redeem(q, true)]));
            Legal(s, events) && !NoReplay(Exec(s, events))
  {
    hide Enabled, Apply, NoReplay, Legal, Exec, Opening;
    var revision, replay := s.vault.revision, [Redeem(p, true), Redeem(q, true)];
    OpeningSends(s, p);
    ExpiryFreesTheLease(s, p);
    var t := Exec(Underway(s, p), [Expire]);
    OpeningSends(t, q);
    SecondArrivalReplays(Underway(t, q), p, q);
    Compose(t, Opening(q, revision), replay);
    Compose(Underway(s, p), [Expire], Opening(q, revision) + replay);
    Compose(s, Opening(p, revision), [Expire] + (Opening(q, revision) + replay));
  }

  lemma {:induction false} LegalByStates(s: State, events: seq<Event>, states: seq<State>)
    requires |states| == |events| + 1 && states[0] == s
    requires forall i | 0 <= i < |events| ::
               Enabled(states[i], events[i]) && Apply(states[i], events[i]) == states[i + 1]
    ensures Legal(s, events) && Exec(s, events) == states[|events|]
    decreases |events|
  {
    hide Enabled, Apply;
    if events != [] {
      LegalByStates(states[1], events[1..], states[1..]);
    }
  }

  lemma {:induction false} Compose(s: State, a: seq<Event>, b: seq<Event>)
    requires Legal(s, a) && Legal(Exec(s, a), b)
    ensures Legal(s, a + b) && Exec(s, a + b) == Exec(Exec(s, a), b)
    decreases |a|
  {
    hide Enabled, Apply;
    if a == [] {
      assert a + b == b;
    } else {
      assert (a + b)[1..] == a[1..] + b;
      Compose(Apply(s, a[0]), a[1..], b);
    }
  }

  // ---------------------------------------------------------------- what a swap stores

  /** A swap that commits stores the issued token under the next revision, and its flight gets exactly that. */
  lemma SwapStoresNextRevision(s: State, p: nat, usable: bool)
    requires Enabled(s, Swap(p, usable)) && s.lease == Some(p)
    requires s.flights[p].phase.read.revision == s.vault.revision
    ensures var t := Apply(s, Swap(p, usable));
            && t.vault.revision - s.vault.revision == 1 && t.vault.token == s.flights[p].phase.issued
            && t.flights[p].phase == Settled(Some(t.vault))
  {
  }
}
