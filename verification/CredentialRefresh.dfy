/**
 * Refreshing one rotating OAuth credential from several replicas, as interleaved steps: single flight inside
 * a process, a cross-replica lease, the revision re-check, the vendor exchange (section 6 of RFC 6749) with its
 * resends, and the fenced compare-and-swap. Requests and answers may be lost or late, answers rejected, callers may
 * abort, processes may crash and leases expire at any moment.
 */
module CredentialRefresh {
  import opened Wrappers

  /** Refresh tokens are numbered in the order the vendor issues them; every token below the live one is redeemed. */
  type Token = nat

  datatype Credential = Credential(revision: nat, token: Token)

  datatype Phase =
    | Waiting                                                          // asked for the lease
    | Leased                                                           // lease granted, vault not read yet
    | Checked(read: Credential, tried: nat)                            // revision unchanged: about to send a request
    | Travelling(read: Credential, tried: nat)                         // the request has not reached the vendor
    | Answering(read: Credential, tried: nat, answer: Option<Token>)   // the vendor answered (None: refused)
    | Exchanged(read: Credential, issued: Token)                       // answer accepted, the vault not updated yet
    | Settled(result: Option<Credential>)                              // promise settled (None: it threw), not released

  /** The one pending refresh of a process: who started it from which revision, and everyone who joined. */
  datatype Flight = Flight(phase: Phase, from: nat, callers: seq<nat>)

  /** A swap under way whose flight was aborted. */
  datatype CutSwap = CutSwap(read: Credential, issued: Token)

  /** A finished call: the revision it started from, the one its flight started from, and what it got. */
  datatype Returned = Returned(from: nat, flightFrom: nat, result: Option<Credential>)

  datatype Presentation = Presentation(token: Token, live: Token)

  /** `strays` are the tokens of requests still travelling that nobody waits for; `attempts` is the resend limit. */
  datatype State = State(
    vault: Credential,
    live: Token,
    lease: Option<nat>,
    flights: map<nat, Flight>,
    cut: map<nat, CutSwap>,
    strays: seq<Token>,
    attempts: nat,
    presented: seq<Presentation>,
    returned: set<Returned>)

  datatype Event =
    | Call(p: nat, from: nat)
    | Grant(p: nat)
    | Read(p: nat)
    | Send(p: nat)
    | Redeem(p: nat, rotate: bool)
    | Answer(p: nat)
    | Drop(p: nat)                       // the request vanishes before the vendor sees it
    | TimeOut(p: nat)                    // the attempt ends while its request still travels
    | LoseAnswer(p: nat)                 // lost, timed out, or a retryable status
    | Stray(i: nat, rotate: bool)        // a request nobody waits for reaches the vendor
    | GiveUp(p: nat)                     // abort, deadline, rejected answer, missing token
    | Swap(p: nat, usable: bool)
    | CutOff(p: nat)                     // abort while the swap is under way
    | Land(p: nat)                       // such a swap reaches its commit
    | Release(p: nat, freed: bool)
    | Crash(p: nat)
    | Expire

  predicate At(s: State, p: nat, test: Phase -> bool) {
    p in s.flights && test(s.flights[p].phase)
  }

  predicate Enabled(s: State, e: Event) {
    match e
    case Call(_, from) => from <= s.vault.revision
    case Grant(p) => At(s, p, (f: Phase) => f.Waiting?) && s.lease.None?
    case Read(p) => At(s, p, (f: Phase) => f.Leased?)
    case Send(p) => At(s, p, (f: Phase) => f.Checked?)
    case Redeem(p, _) => At(s, p, (f: Phase) => f.Travelling?)
    case Answer(p) => At(s, p, (f: Phase) => f.Answering?)
    case Drop(p) => At(s, p, (f: Phase) => f.Travelling?)
    case TimeOut(p) => At(s, p, (f: Phase) => f.Travelling?)
    case LoseAnswer(p) => At(s, p, (f: Phase) => f.Answering?)
    case Stray(i, _) => i < |s.strays|
    case GiveUp(p) => At(s, p, (f: Phase) => !f.Settled?)
    case Swap(p, _) => At(s, p, (f: Phase) => f.Exchanged?)
    case CutOff(p) => At(s, p, (f: Phase) => f.Exchanged?)
    case Land(p) => p in s.cut
    case Release(p, _) => At(s, p, (f: Phase) => f.Settled?)
    case Crash(p) => p in s.flights
    case Expire => s.lease.Some?
  }

  function Move(s: State, p: nat, phase: Phase): State
    requires p in s.flights
  {
    s.(flights := s.flights[p := s.flights[p].(phase := phase)])
  }

  /** The vendor sees a token: the live one is redeemed, for itself or for the next one, any other is refused. */
  function Seen(s: State, token: Token, rotate: bool): State {
    s.(presented := s.presented + [Presentation(token, s.live)],
       live := if token == s.live && rotate then s.live + 1 else s.live)
  }

  /** A failed attempt is repeated with the same token up to the limit. */
  function Retried(s: State, p: nat, read: Credential, tried: nat): State
    requires p in s.flights
  {
    Move(s, p, if tried + 1 < s.attempts then Checked(read, tried + 1) else Settled(None))
  }

  /** A request that is no longer waited for keeps travelling. */
  function LeftBehind(phase: Phase): seq<Token> {
    if phase.Travelling? then [phase.read.token] else []
  }

  /** The swap commits only under the lease and on the revision that was read. */
  predicate Commits(s: State, p: nat, read: Credential) {
    s.lease == Some(p) && s.vault.revision == read.revision
  }

  function Stored(s: State, issued: Token): Credential {
    Credential(s.vault.revision + 1, issued)
  }

  function Apply(s: State, e: Event): State
    requires Enabled(s, e)
  {
    match e
    case Call(p, from) =>
      if p in s.flights then
        s.(flights := s.flights[p := s.flights[p].(callers := s.flights[p].callers + [from])])
      else
        s.(flights := s.flights[p := Flight(Waiting, from, [from])])
    case Grant(p) => Move(s, p, Leased).(lease := Some(p), cut := s.cut - {p})
    case Read(p) =>
      Move(s, p, if s.vault.revision != s.flights[p].from then Settled(Some(s.vault)) else Checked(s.vault, 0))
    case Send(p) => Move(s, p, Travelling(s.flights[p].phase.read, s.flights[p].phase.tried))
    case Redeem(p, rotate) =>
      var phase := s.flights[p].phase;
      var seen := Seen(s, phase.read.token, rotate);
      Move(seen, p, Answering(phase.read, phase.tried, if phase.read.token == s.live then Some(seen.live) else None))
    case Answer(p) =>
      var phase := s.flights[p].phase;
      Move(s, p, if phase.answer.Some? then Exchanged(phase.read, phase.answer.value) else Settled(None))
    case Drop(p) => Retried(s, p, s.flights[p].phase.read, s.flights[p].phase.tried)
    case TimeOut(p) =>
      var phase := s.flights[p].phase;
      Retried(s, p, phase.read, phase.tried).(strays := s.strays + LeftBehind(phase))
    case LoseAnswer(p) => Retried(s, p, s.flights[p].phase.read, s.flights[p].phase.tried)
    case Stray(i, rotate) => Seen(s, s.strays[i], rotate).(strays := s.strays[..i] + s.strays[i + 1..])
    case GiveUp(p) => Move(s, p, Settled(None)).(strays := s.strays + LeftBehind(s.flights[p].phase))
    case Swap(p, usable) =>
      var phase := s.flights[p].phase;
      if Commits(s, p, phase.read) then
        Move(s, p, Settled(Some(Stored(s, phase.issued)))).(vault := Stored(s, phase.issued))
      else Move(s, p, Settled(if usable then Some(s.vault) else None))
    case CutOff(p) =>
      var phase := s.flights[p].phase;
      Move(s, p, Settled(None)).(cut := s.cut[p := CutSwap(phase.read, phase.issued)])
    case Land(p) =>
      var swap := s.cut[p];
      s.(vault := if Commits(s, p, swap.read) then Stored(s, swap.issued) else s.vault, cut := s.cut - {p})
    case Release(p, freed) =>
      var flight := s.flights[p];
      s.(flights := s.flights - {p},
         lease := if freed && s.lease == Some(p) then None else s.lease,
         returned := s.returned + set from | from in flight.callers :: Returned(from, flight.from, flight.phase.result))
    case Crash(p) =>
      s.(flights := s.flights - {p}, cut := s.cut - {p}, strays := s.strays + LeftBehind(s.flights[p].phase))
    case Expire => s.(lease := None)
  }

  ghost predicate Legal(s: State, events: seq<Event>)
    decreases |events|
  {
    events == [] || (Enabled(s, events[0]) && Legal(Apply(s, events[0]), events[1..]))
  }

  ghost function Exec(s: State, events: seq<Event>): State
    requires Legal(s, events)
    decreases |events|
  {
    if events == [] then s else Exec(Apply(s, events[0]), events[1..])
  }

  // ---------------------------------------------------------------- safety

  /** Redeemed, and not yet in the vault. */
  predicate Mid(phase: Phase) {
    phase.Exchanged? || (phase.Answering? && phase.answer.Some?)
  }

  function Issued(phase: Phase): Token
    requires Mid(phase)
  {
    if phase.Exchanged? then phase.issued else phase.answer.value
  }

  /** The vault's token was redeemed for another one, and this process has the answer or is about to get it. */
  predicate Rotated(s: State, p: nat) {
    p in s.flights && Mid(s.flights[p].phase) && Issued(s.flights[p].phase) != s.vault.token
  }

  predicate OnTheWay(s: State, p: nat) {
    p in s.flights && s.flights[p].phase.Travelling?
  }

  /** Losing the lease now would matter: the holder is not done, and will not find a newer credential. */
  predicate NeedsLease(s: State, p: nat) {
    p in s.flights &&
    match s.flights[p].phase
    case Waiting => false
    case Leased => s.flights[p].from == s.vault.revision
    case Settled(_) => false
    case _ => true
  }

  /**
   * Nothing that was redeemed is lost, rejected or abandoned, no request is abandoned while it travels, and no
   * holder that needs it loses the lease.
   */
  predicate Careful(s: State, e: Event) {
    match e
    case Crash(p) => !Rotated(s, p) && !OnTheWay(s, p)
    case GiveUp(p) => !Rotated(s, p) && !OnTheWay(s, p)
    case LoseAnswer(p) => !Rotated(s, p)
    case CutOff(p) => !Rotated(s, p)
    case TimeOut(_) => false
    case Expire => s.lease.Some? ==> !NeedsLease(s, s.lease.value)
    case _ => true
  }

  ghost predicate CarefulRun(s: State, events: seq<Event>)
    requires Legal(s, events)
    decreases |events|
  {
    events == [] || (Careful(s, events[0]) && CarefulRun(Apply(s, events[0]), events[1..]))
  }

  predicate Start(s: State) {
    && s.vault.token == s.live && s.lease.None? && s.flights == map[] && s.cut == map[] && s.strays == []
    && s.attempts >= 1 && s.presented == [] && s.returned == {}
  }

  predicate NoReplay(s: State) {
    forall i | 0 <= i < |s.presented| :: s.presented[i].token == s.presented[i].live
  }

  /** Whoever holds the lease is, or was when it was cut off, between redemption and swap. */
  predicate MidExchange(s: State) {
    s.lease.Some? && var p := s.lease.value; p in s.cut || (p in s.flights && Mid(s.flights[p].phase))
  }

  /** Callers that did not start ahead of their flight got something newer, or an error. */
  predicate NewerOnly(s: State) {
    forall r | r in s.returned && r.result.Some? && r.from <= r.flightFrom :: r.from < r.result.value.revision
  }

  predicate Promises(s: State) {
    NoReplay(s) && NewerOnly(s) && (!MidExchange(s) ==> s.vault.token == s.live)
  }

  predicate FlightOk(s: State, p: nat, f: Flight) {
    && f.from in f.callers
    && (!f.phase.Settled? ==> f.from <= s.vault.revision)
    && match f.phase
       case Waiting => true
       case Leased => s.lease == Some(p) || f.from < s.vault.revision
       case Checked(read, tried) =>
         s.lease == Some(p) && read == s.vault && f.from == s.vault.revision && tried < s.attempts
       case Travelling(read, tried) =>
         s.lease == Some(p) && read == s.vault && f.from == s.vault.revision && tried < s.attempts
       case Answering(read, _, answer) =>
         s.lease == Some(p) && read == s.vault && f.from == s.vault.revision && answer == Some(s.live)
       case Exchanged(read, issued) =>
         s.lease == Some(p) && read == s.vault && f.from == s.vault.revision && issued == s.live
       case Settled(result) => result.Some? ==> f.from < result.value.revision <= s.vault.revision
  }

  /** A cut-off swap could at most store the live token again. */
  predicate CutOk(s: State, p: nat, c: CutSwap) {
    s.lease == Some(p) ==>
      && c.issued == s.vault.token == s.live
      && (p in s.flights ==> s.flights[p].phase.Waiting? || s.flights[p].phase.Settled?)
  }

  predicate Invariant(s: State) {
    && s.attempts >= 1
    && s.strays == []
    && NoReplay(s)
    && (forall p | p in s.flights :: FlightOk(s, p, s.flights[p]))
    && (forall p | p in s.cut :: CutOk(s, p, s.cut[p]))
    && (!MidExchange(s) ==> s.vault.token == s.live)
    && (forall r | r in s.returned && r.result.Some? :: r.flightFrom < r.result.value.revision <= s.vault.revision)
  }

  /** A step of p, which may change the vault only while it holds the lease, keeps every other process in order. */
  lemma OthersUntouched(s: State, t: State, p: nat)
    requires Invariant(s)
    requires forall q | q in t.flights && q != p :: q in s.flights && t.flights[q] == s.flights[q]
    requires forall q | q in t.cut && q != p :: q in s.cut && t.cut[q] == s.cut[q]
    requires t.lease == s.lease || (t.lease == Some(p) && s.lease.None?) || (t.lease.None? && s.lease == Some(p))
    requires t.vault == s.vault || (s.lease == Some(p) && s.vault.revision <= t.vault.revision)
    requires t.live == s.live || s.lease == Some(p)
    requires t.attempts == s.attempts
    ensures forall q | q in t.flights && q != p :: FlightOk(t, q, t.flights[q])
    ensures forall q | q in t.cut && q != p :: CutOk(t, q, t.cut[q])
  {
  }

  /** What a step of p owes beyond its own flight. */
  predicate OwnOk(s: State, t: State, p: nat) {
    && (p in t.flights ==> FlightOk(t, p, t.flights[p]))
    && (p in t.cut ==> CutOk(t, p, t.cut[p]))
    && t.strays == [] && NoReplay(t)
    && (!MidExchange(t) ==> t.vault.token == t.live)
    && (forall r | r in t.returned && r.result.Some? :: r.flightFrom < r.result.value.revision <= t.vault.revision)
  }

  predicate Exchanging(e: Event) {
    e.Send? || e.Redeem? || e.Answer? || e.Drop? || e.LoseAnswer?
  }

  lemma ExchangeStepIsOk(s: State, e: Event)
    requires Invariant(s) && Enabled(s, e) && Careful(s, e) && Exchanging(e)
    ensures OwnOk(s, Apply(s, e), e.p)
  {
    assert FlightOk(s, e.p, s.flights[e.p]);
  }

  lemma LeaseStepIsOk(s: State, e: Event)
    requires Invariant(s) && Enabled(s, e) && (e.Call? || e.Grant? || e.Read?)
    ensures OwnOk(s, Apply(s, e), e.p)
  {
    assert e.p in s.flights ==> FlightOk(s, e.p, s.flights[e.p]);
  }

  lemma ReleaseIsOk(s: State, e: Event)
    requires Invariant(s) && Enabled(s, e) && e.Release?
    ensures OwnOk(s, Apply(s, e), e.p)
  {
    assert FlightOk(s, e.p, s.flights[e.p]);
    assert e.p in s.cut ==> CutOk(s, e.p, s.cut[e.p]);
  }

  lemma SwapStepIsOk(s: State, e: Event)
    requires Invariant(s) && Enabled(s, e) && Careful(s, e) && (e.Swap? || e.CutOff? || e.Land?)
    ensures OwnOk(s, Apply(s, e), e.p)
  {
    assert e.p in s.flights ==> FlightOk(s, e.p, s.flights[e.p]);
  }

  lemma LosingStepIsOk(s: State, e: Event)
    requires Invariant(s) && Enabled(s, e) && Careful(s, e) && (e.GiveUp? || e.Crash?)
    ensures OwnOk(s, Apply(s, e), e.p)
  {
    assert FlightOk(s, e.p, s.flights[e.p]);
  }

  lemma ExpiryKeepsInvariant(s: State)
    requires Invariant(s) && Enabled(s, Expire) && Careful(s, Expire)
    ensures Invariant(Apply(s, Expire))
  {
    var p := s.lease.value;
    assert p in s.flights ==> FlightOk(s, p, s.flights[p]);
    assert p in s.cut ==> CutOk(s, p, s.cut[p]);
    var t := Apply(s, Expire);
    forall q | q in t.flights
      ensures FlightOk(t, q, t.flights[q])
    {
      assert FlightOk(s, q, s.flights[q]);
    }
  }

  lemma StepKeepsInvariant(s: State, e: Event)
    requires Invariant(s) && Enabled(s, e) && Careful(s, e)
    ensures Invariant(Apply(s, e))
  {
    if e.Expire? {
      ExpiryKeepsInvariant(s);
    } else if !e.Stray? {
      StepFrame(s, e);
      OthersUntouched(s, Apply(s, e), e.p);
      hide FlightOk, CutOk, Apply, NoReplay, MidExchange;
      if Exchanging(e) {
        ExchangeStepIsOk(s, e);
      } else if e.Swap? || e.CutOff? || e.Land? {
        SwapStepIsOk(s, e);
      } else if e.GiveUp? || e.Crash? {
        LosingStepIsOk(s, e);
      } else if e.Release? {
        ReleaseIsOk(s, e);
      } else {
        LeaseStepIsOk(s, e);
      }
    }
  }

  /** Only the process that steps changes, and the vault and the live token only under its lease. */
  lemma StepFrame(s: State, e: Event)
    requires Invariant(s) && Enabled(s, e) && Careful(s, e) && !e.Expire? && !e.Stray?
    ensures var t, p := Apply(s, e), e.p;
            && (forall q | q in t.flights && q != p :: q in s.flights && t.flights[q] == s.flights[q])
            && (forall q | q in t.cut && q != p :: q in s.cut && t.cut[q] == s.cut[q])
            && (t.lease == s.lease || (t.lease == Some(p) && s.lease.None?) || (t.lease.None? && s.lease == Some(p)))
            && (t.vault == s.vault || (s.lease == Some(p) && s.vault.revision <= t.vault.revision))
            && (t.live == s.live || s.lease == Some(p))
            && t.attempts == s.attempts
  {
    assert e.p in s.flights ==> FlightOk(s, e.p, s.flights[e.p]);
  }

  lemma {:induction false} RunKeepsInvariant(s: State, events: seq<Event>)
    requires Invariant(s) && Legal(s, events) && CarefulRun(s, events)
    ensures Invariant(Exec(s, events))
    decreases |events|
  {
    hide Invariant, Apply, Enabled, Careful;
    if events != [] {
      StepKeepsInvariant(s, events[0]);
      RunKeepsInvariant(Apply(s, events[0]), events[1..]);
    }
  }

  lemma StartIsSafe(s: State)
    requires Start(s)
    ensures Invariant(s)
  {
  }

  lemma InvariantPromises(s: State)
    requires Invariant(s)
    ensures Promises(s)
  {
    hide NoReplay, FlightOk, CutOk, MidExchange;
  }

  /**
   * In every careful interleaving of replicas, with requests dropped and resent, answers refused, swaps aborted and
   * leases expiring: no refresh token is presented after it was redeemed; whenever the lease holder is not between
   * redemption and swap the vault holds the vendor's live token; and callers that do not start ahead of their flight
   * get a newer revision.
   */
  lemma RefreshIsSafe(s: State, events: seq<Event>)
    requires Start(s) && Legal(s, events) && CarefulRun(s, events)
    ensures Promises(Exec(s, events))
  {
    hide Invariant, Promises, Start;
    StartIsSafe(s);
    RunKeepsInvariant(s, events);
    InvariantPromises(Exec(s, events));
  }
}
