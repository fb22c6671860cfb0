/**
 * Capability keys in two cells: the analytical cell verifies with its ring, the control-plane cell signs with its
 * own. A provisioning run installs a key verifier-first, then retires the previous key signer-first, one
 * transaction at a time. Times are microseconds.
 */
module KeyRotation {
  import opened Wrappers

  const SECOND := 1_000_000
  const MINUTE := 60 * SECOND
  const DRAIN := 10 * MINUTE
  const OVERLAP := 5 * MINUTE

  datatype Key = Key(secret: string, activeAt: int, retireAt: int)

  type Ring = map<string, Key>

  datatype Fault =
    | InvalidMetadata | ImmutableIdentifier | SharedSecret | NotReady | NoDrain | NoReplacement | InvalidTarget

  datatype Previous = Previous(id: string, retireAt: int)

  datatype Input = Input(id: string, key: Key, previous: Option<Previous>)

  datatype Side = Verifier | Signer

  datatype Step = Install(side: Side, id: string, key: Key) | Retire(side: Side, id: string, at: int)

  // ---------------------------------------------------------------- one transaction in one cell

  function Pruned(ring: Ring, now: int): Ring {
    map id | id in ring && ring[id].retireAt >= now - DRAIN :: ring[id]
  }

  predicate Ready(ring: Ring, now: int) {
    exists id | id in ring :: ring[id].activeAt <= now && ring[id].retireAt > now + OVERLAP
  }

  predicate Replaceable(ring: Ring, id: string, at: int) {
    exists other | other in ring ::
      other != id && ring[other].activeAt <= at - OVERLAP && ring[other].retireAt > at + OVERLAP
  }

  function Installed(ring: Ring, id: string, key: Key, now: int): Result<Ring, Fault> {
    if key.retireAt <= key.activeAt + OVERLAP then Err(InvalidMetadata)
    else if id in ring && ring[id].secret != key.secret then Err(ImmutableIdentifier)
    else if exists other | other in ring :: other != id && ring[other].secret == key.secret then Err(SharedSecret)
    else
      var ring' := Pruned(ring[id := key], now);
      if Ready(ring', now) then Ok(ring') else Err(NotReady)
  }

  function Retired(ring: Ring, id: string, at: int, now: int): Result<Ring, Fault> {
    if at <= now + DRAIN then Err(NoDrain)
    else if !Replaceable(ring, id, at) then Err(NoReplacement)
    else if id !in ring || at <= ring[id].activeAt + OVERLAP then Err(InvalidTarget)
    else Ok(ring[id := ring[id].(retireAt := at)])
  }

  function Committed(ring: Ring, step: Step, now: int): Result<Ring, Fault> {
    match step
    case Install(_, id, key) => Installed(ring, id, key, now)
    case Retire(_, id, at) => Retired(ring, id, at, now)
  }

  /** A cell's database: a transaction that fails leaves the ring as it was. */
  class Cell {
    var ring: Ring

    constructor (ring: Ring)
      ensures this.ring == ring
    {
      this.ring := ring;
    }

    method Transact(step: Step, now: int) returns (fault: Option<Fault>)
      modifies this
      ensures match Committed(old(ring), step, now)
              case Ok(ring') => ring == ring' && fault.None?
              case Err(f) => ring == old(ring) && fault == Some(f)
    {
      var before := ring;
      match step {
        case Install(_, id, key) =>
          if key.retireAt <= key.activeAt + OVERLAP {
            return Some(InvalidMetadata);
          }
          if id in ring && ring[id].secret != key.secret {
            return Some(ImmutableIdentifier);
          }
          if exists other | other in ring :: other != id && ring[other].secret == key.secret {
            return Some(SharedSecret);
          }
          ring := ring[id := key];
          ring := Pruned(ring, now);
          if !Ready(ring, now) {
            ring := before;
            return Some(NotReady);
          }
        case Retire(_, id, at) =>
          if at <= now + DRAIN {
            return Some(NoDrain);
          }
          if !Replaceable(ring, id, at) {
            return Some(NoReplacement);
          }
          if id !in ring || at <= ring[id].activeAt + OVERLAP {
            return Some(InvalidTarget);
          }
          ring := ring[id := ring[id].(retireAt := at)];
      }
      fault := None;
    }
  }

  // ---------------------------------------------------------------- a run over both cells

  datatype Cells = Cells(verifier: Ring, signer: Ring)

  function Plan(input: Input): (steps: seq<Step>)
    ensures |steps| == if input.previous.Some? then 4 else 2
  {
    [Install(Verifier, input.id, input.key), Install(Signer, input.id, input.key)] +
    match input.previous
    case None => []
    case Some(p) => [Retire(Signer, p.id, p.retireAt), Retire(Verifier, p.id, p.retireAt)]
  }

  function Apply(cells: Cells, step: Step, now: int): Result<Cells, Fault> {
    match step.side
    case Verifier =>
      (match Committed(cells.verifier, step, now)
       case Err(f) => Err(f)
       case Ok(ring) => Ok(Cells(ring, cells.signer)))
    case Signer =>
      (match Committed(cells.signer, step, now)
       case Err(f) => Err(f)
       case Ok(ring) => Ok(Cells(cells.verifier, ring)))
  }

  /** How a run ended: `times` holds one clock reading for each transaction it lived to try. */
  datatype Ending = Completed | Failed(fault: Fault) | Crashed

  /** The cells after carrying out a plan, stopping at the first fault or when the times run out. */
  function Carried(cells: Cells, plan: seq<Step>, times: seq<int>): (Cells, Ending)
    decreases |plan|
  {
    if plan == [] then (cells, Completed)
    else if times == [] then (cells, Crashed)
    else
      match Apply(cells, plan[0], times[0])
      case Err(f) => (cells, Failed(f))
      case Ok(cells') => Carried(cells', plan[1..], times[1..])
  }

  /** Verifier first, then signer; the previous key is then retired in the opposite order. */
  method Provision(verifier: Cell, signer: Cell, input: Input, times: seq<int>) returns (ending: Ending)
    requires verifier != signer
    modifies verifier, signer
    ensures (Cells(verifier.ring, signer.ring), ending) ==
              Carried(Cells(old(verifier.ring), old(signer.ring)), Plan(input), times)
  {
    var plan := Plan(input);
    ghost var begun := Cells(verifier.ring, signer.ring);
    var cells := [verifier, signer];
    var n := 0;
    while n < 2
      invariant n <= 2 && n <= |times| && cells == [verifier, signer]
      invariant Carried(begun, plan, times) == Carried(Cells(verifier.ring, signer.ring), plan[n..], times[n..])
    {
      if n == |times| {
        return Crashed;
      }
      var fault := cells[n].Transact(Install(if n == 0 then Verifier else Signer, input.id, input.key), times[n]);
      if fault.Some? {
        return Failed(fault.value);
      }
      assert plan[n..][1..] == plan[n + 1..] && times[n..][1..] == times[n + 1..];
      n := n + 1;
    }
    match input.previous {
      case None =>
      case Some(p) =>
        var order := [signer, verifier];
        while n < 4
          invariant 2 <= n <= 4 && n <= |times| && order == [signer, verifier]
          invariant Carried(begun, plan, times) == Carried(Cells(verifier.ring, signer.ring), plan[n..], times[n..])
        {
          if n == |times| {
            return Crashed;
          }
          var fault := order[n - 2].Transact(Retire(if n == 2 then Signer else Verifier, p.id, p.retireAt), times[n]);
          if fault.Some? {
            return Failed(fault.value);
          }
          assert plan[n..][1..] == plan[n + 1..] && times[n..][1..] == times[n + 1..];
          n := n + 1;
        }
    }
    ending := Completed;
  }

  // ---------------------------------------------------------------- tokens

  /** A token names its key, carries whole seconds, and is signed with the key's secret. */
  datatype Token = Token(id: string, secret: string, issued: int, expires: int)

  function Floor(time: int): int { time / SECOND }

  function Least(a: int, b: int): int { if a < b then a else b }

  predicate Usable(signer: Ring, id: string, now: int) {
    id in signer && signer[id].activeAt <= now && signer[id].retireAt > now + OVERLAP
  }

  /** The key a signer picks is usable, and none usable was activated later. */
  ghost predicate Picked(signer: Ring, id: string, now: int) {
    Usable(signer, id, now) &&
      forall other | Usable(signer, other, now) :: signer[other].activeAt <= signer[id].activeAt
  }

  function Deadline(key: Key, until: int, now: int): int {
    Least(Least(until, now + OVERLAP), key.retireAt)
  }

  function Signed(signer: Ring, id: string, until: int, now: int): Option<Token>
    requires id in signer
  {
    var deadline := Deadline(signer[id], until, now);
    if deadline <= now + 2 * SECOND then None
    else Some(Token(id, signer[id].secret, Floor(now), Floor(deadline)))
  }

  predicate Accepts(verifier: Ring, token: Token, now: int) {
    && token.issued <= Floor(now) + 5 && Floor(now) < token.expires
    && token.issued < token.expires <= token.issued + 301
    && token.id in verifier
    && verifier[token.id].activeAt <= token.issued * SECOND
    && token.expires * SECOND <= verifier[token.id].retireAt
    && verifier[token.id].secret == token.secret
  }
}
