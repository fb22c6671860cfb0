/** What the order of the transactions protects: the signer never outlives the verifier, and no token is refused. */
module KeyRotationProofs {
  import opened Wrappers
  import opened KeyRotation

  /** The verifier holds the key with the same secret, from no later and until no earlier. */
  predicate Backed(verifier: Ring, id: string, key: Key) {
    && id in verifier && verifier[id].secret == key.secret
    && verifier[id].activeAt <= key.activeAt && key.retireAt <= verifier[id].retireAt
  }

  /** Not yet due for pruning. */
  predicate Live(key: Key, now: int) {
    key.retireAt >= now - DRAIN
  }

  predicate HoldsLive(ring: Ring, id: string, now: int) {
    id in ring && Live(ring[id], now)
  }

  ghost predicate Covered(cells: Cells, now: int) {
    forall id | HoldsLive(cells.signer, id, now) :: Backed(cells.verifier, id, cells.signer[id])
  }

  // ---------------------------------------------------------------- exactly which transactions keep coverage

  predicate KeepsCover(cells: Cells, step: Step, now: int) {
    match step
    case Install(Verifier, id, key) =>
      HoldsLive(cells.signer, id, now) ==>
        key.activeAt <= cells.signer[id].activeAt && cells.signer[id].retireAt <= key.retireAt
    case Install(Signer, id, key) => Live(key, now) ==> Backed(cells.verifier, id, key)
    case Retire(Signer, id, at) => id in cells.signer ==> Backed(cells.verifier, id, cells.signer[id].(retireAt := at))
    case Retire(Verifier, id, at) => HoldsLive(cells.signer, id, now) ==> cells.signer[id].retireAt <= at
  }

  /** A transaction that commits keeps the signer covered if and only if it neither cuts under it nor overreaches. */
  lemma CoverageStep(cells: Cells, step: Step, now: int)
    requires Covered(cells, now) && Apply(cells, step, now).Ok?
    ensures Covered(Apply(cells, step, now).value, now) <==> KeepsCover(cells, step, now)
  {
    hide Ready, Replaceable;
    var cells' := Apply(cells, step, now).value;
    assert forall id | id != step.id && HoldsLive(cells'.signer, id, now) ::
        HoldsLive(cells.signer, id, now) && cells'.signer[id] == cells.signer[id];
    if KeepsCover(cells, step, now) {
      forall id | HoldsLive(cells'.signer, id, now)
        ensures Backed(cells'.verifier, id, cells'.signer[id])
      {
        if id != step.id {
          assert Backed(cells.verifier, id, cells.signer[id]);
        }
      }
    } else {
      assert HoldsLive(cells'.signer, step.id, now) && !Backed(cells'.verifier, step.id, cells'.signer[step.id]);
    }
  }

  lemma CoverageLasts(cells: Cells, now: int, later: int)
    requires Covered(cells, now) && now <= later
    ensures Covered(cells, later)
  {
    assert forall id | HoldsLive(cells.signer, id, later) :: HoldsLive(cells.signer, id, now);
  }

  // ---------------------------------------------------------------- runs interleaved, stopped and retried

  /** A run: `ended` says that it failed, crashed or was given up and takes no further step; a retry is a new run. */
  datatype Run = Run(input: Input, done: nat, ended: bool)

  datatype System = System(cells: Cells, now: int, runs: seq<Run>, tokens: seq<Token>)

  datatype Event =
    | Elapse(time: nat)
    | Start(input: Input)
    | Transaction(run: nat)
    | Abandon(run: nat)
    | Issue(id: string, until: int)

  predicate CanStep(run: Run) {
    !run.ended && run.done < |Plan(run.input)|
  }

  /** Still to write the key into a cell. */
  predicate Installing(run: Run) {
    CanStep(run) && run.done < 2
  }

  /** Still to shorten this key in a cell. */
  predicate Retires(run: Run, id: string) {
    CanStep(run) && run.input.previous.Some? && run.input.previous.value.id == id
  }

  ghost function Next(s: System, e: Event): System {
    match e
    case Elapse(time) => s.(now := s.now + time)
    case Start(input) =>
      if Admitted(s, input) then s.(runs := s.runs + [Run(input, 0, false)]) else s
    case Transaction(i) =>
      if i >= |s.runs| || !CanStep(s.runs[i]) then s
      else
        var run := s.runs[i];
        (match Apply(s.cells, Plan(run.input)[run.done], s.now)
         case Err(_) => s.(runs := s.runs[i := run.(ended := true)])
         case Ok(cells) => s.(cells := cells, runs := s.runs[i := run.(done := run.done + 1)]))
    case Abandon(i) =>
      if i >= |s.runs| then s else s.(runs := s.runs[i := s.runs[i].(ended := true)])
    case Issue(id, until) =>
      if !Usable(s.cells.signer, id, s.now) then s
      else
        match Signed(s.cells.signer, id, until, s.now)
        case None => s
        case Some(token) => s.(tokens := s.tokens + [token])
  }

  ghost function After(s: System, events: seq<Event>): System
    decreases |events|
  {
    if events == [] then s else After(Next(s, events[0]), events[1..])
  }

  // ---------------------------------------------------------------- what a new run must agree with

  /** While both are still at it: one contract for a key, and one time for a retirement. */
  predicate Agree(a: Run, b: Run) {
    && (Installing(a) && Installing(b) && a.input.id == b.input.id ==> a.input.key == b.input.key)
    && (a.input.previous.Some? && b.input.previous.Some? && Retires(a, b.input.previous.value.id)
        && Retires(b, a.input.previous.value.id) ==>
          a.input.previous.value.retireAt == b.input.previous.value.retireAt)
  }

  /** A key still being installed is retired only while new to the signer, and not to last longer. */
  predicate Chained(signer: Ring, a: Run, b: Run) {
    Installing(a) && Retires(b, a.input.id) ==>
      && a.input.id !in signer && b.done <= 2
      && b.input.previous.value.retireAt <= a.input.key.retireAt
  }

  /** And by one run alone. */
  predicate Alone(a: Run, other: Run, b: Run) {
    Installing(a) && Installing(other) && a.input.id == other.input.id ==> !Retires(b, a.input.id)
  }

  ghost predicate InHarmony(signer: Ring, runs: seq<Run>) {
    && (forall a, b | a in runs && b in runs :: Agree(a, b) && Chained(signer, a, b))
    && (forall i, j, b | 0 <= i < j < |runs| && b in runs :: Alone(runs[i], runs[j], b))
  }

  /** The install does not shorten what the signer has. */
  predicate InstallFits(cells: Cells, now: int, input: Input) {
    KeepsCover(cells, Install(Verifier, input.id, input.key), now)
  }

  /** The retirement does not lengthen what the verifier has, while it can still be carried out. */
  predicate RetireFits(cells: Cells, now: int, input: Input) {
    input.previous.Some? && input.previous.value.retireAt > now + DRAIN ==>
      KeepsCover(cells, Retire(Signer, input.previous.value.id, input.previous.value.retireAt), now)
  }

  predicate WholeSecond(time: int) {
    time % SECOND == 0
  }

  /** What an operator checks before starting a run: the cells as they are, and the runs still under way. */
  ghost predicate Admitted(s: System, input: Input) {
    && InstallFits(s.cells, s.now, input) && RetireFits(s.cells, s.now, input) && WholeSecond(input.key.activeAt)
    && InHarmony(s.cells.signer, s.runs + [Run(input, 0, false)])
  }

  // ---------------------------------------------------------------- the invariant

  /** What a run has still to do fits the cells, and what it has done for that stands. */
  predicate Fits(cells: Cells, now: int, run: Run) {
    && (Installing(run) ==>
          && InstallFits(cells, now, run.input) && WholeSecond(run.input.key.activeAt)
          && (run.done == 1 && Live(run.input.key, now) ==>
                run.input.id in cells.verifier && cells.verifier[run.input.id] == run.input.key))
    && (CanStep(run) && run.input.previous.Some? ==>
          && RetireFits(cells, now, run.input)
          && (run.done == 3 && run.input.previous.value.id in cells.signer ==>
                cells.signer[run.input.previous.value.id].retireAt <= run.input.previous.value.retireAt))
  }

  predicate Outstanding(token: Token, now: int) {
    Floor(now) < token.expires
  }

  /** An unexpired token is accepted, and the signer's key spans it, so no fitting install can cut it off. */
  predicate Honoured(s: System, token: Token) {
    Outstanding(token, s.now) ==>
      && Accepts(s.cells.verifier, token, s.now)
      && token.expires * SECOND <= s.now + OVERLAP
      && token.id in s.cells.signer
      && s.cells.signer[token.id].activeAt <= token.issued * SECOND
      && token.expires * SECOND <= s.cells.signer[token.id].retireAt
  }

  ghost predicate Safe(s: System) {
    && Covered(s.cells, s.now)
    && InHarmony(s.cells.signer, s.runs)
    && (forall run | run in s.runs :: Fits(s.cells, s.now, run))
    && (forall id | id in s.cells.signer :: WholeSecond(s.cells.signer[id].activeAt))
    && (forall token | token in s.tokens :: Honoured(s, token))
  }

  // ---------------------------------------------------------------- steps keep it

  /** The transaction a run tries next keeps the signer covered. */
  lemma NextKeepsCover(cells: Cells, now: int, run: Run)
    requires Covered(cells, now) && Fits(cells, now, run) && CanStep(run)
    requires Apply(cells, Plan(run.input)[run.done], now).Ok?
    ensures KeepsCover(cells, Plan(run.input)[run.done], now)
  {
  }

  /** It leaves every run in harmony with it as fit as before. */
  lemma OtherRunsStayFit(cells: Cells, now: int, run: Run, other: Run)
    requires Covered(cells, now) && Fits(cells, now, run) && CanStep(run) && Fits(cells, now, other)
    requires Agree(run, other) && Chained(cells.signer, run, other) && Chained(cells.signer, other, run)
    requires Apply(cells, Plan(run.input)[run.done], now).Ok?
    ensures Fits(Apply(cells, Plan(run.input)[run.done], now).value, now, other)
  {
    hide Ready, Replaceable;
  }

  lemma OwnRunStaysFit(cells: Cells, now: int, run: Run)
    requires Covered(cells, now) && Fits(cells, now, run) && CanStep(run)
    requires Agree(run, run) && Chained(cells.signer, run, run)
    requires Apply(cells, Plan(run.input)[run.done], now).Ok?
    ensures Fits(Apply(cells, Plan(run.input)[run.done], now).value, now, run.(done := run.done + 1))
  {
    hide Ready, Replaceable;
  }

  lemma FitLasts(cells: Cells, now: int, later: int, run: Run)
    requires Fits(cells, now, run) && now <= later
    ensures Fits(cells, later, run)
  {
  }

  /** A transaction keeps every unexpired token honoured. */
  lemma TokenSurvives(s: System, i: nat, token: Token)
    requires Safe(s) && i < |s.runs| && CanStep(s.runs[i]) && Honoured(s, token) && Outstanding(token, s.now)
    requires Apply(s.cells, Plan(s.runs[i].input)[s.runs[i].done], s.now).Ok?
    ensures Honoured(Next(s, Transaction(i)), token)
  {
    hide Ready, Replaceable, InHarmony, Covered;
    assert s.runs[i] in s.runs;
  }

  /** Run i takes a step or ends: what it still has to do only shrinks. */
  predicate Advances(signer: Ring, signer': Ring, run: Run, run': Run) {
    && run'.input == run.input
    && (Installing(run') ==> Installing(run)) && (CanStep(run') ==> CanStep(run))
    && (forall id | id in signer' :: id in signer || (id == run.input.id && Installing(run) && !Installing(run')))
    && (CanStep(run') && run'.done > 2 && run.done <= 2 && run.input.previous.Some? ==>
          run.input.previous.value.id in signer)
  }

  lemma HarmonyKept(signer: Ring, signer': Ring, runs: seq<Run>, i: nat, run': Run)
    requires InHarmony(signer, runs) && i < |runs| && Advances(signer, signer', runs[i], run')
    ensures InHarmony(signer', runs[i := run'])
  {
    hide Plan;
    var runs' := runs[i := run'];
    forall j, k | 0 <= j < |runs'| && 0 <= k < |runs'|
      ensures Agree(runs'[j], runs'[k]) && Chained(signer', runs'[j], runs'[k])
    {
      assert Agree(runs[j], runs[k]) && Chained(signer, runs[j], runs[k]);
      assert runs[k] in runs;
      assert j < i ==> Alone(runs[j], runs[i], runs[k]);
      assert i < j ==> Alone(runs[i], runs[j], runs[k]);
    }
    forall j, k, l | 0 <= j < k < |runs'| && 0 <= l < |runs'|
      ensures Alone(runs'[j], runs'[k], runs'[l])
    {
      assert runs[l] in runs;
      assert Alone(runs[j], runs[k], runs[l]);
    }
  }

  lemma StepAdvances(cells: Cells, now: int, run: Run)
    requires CanStep(run) && Apply(cells, Plan(run.input)[run.done], now).Ok?
    ensures Advances(cells.signer, Apply(cells, Plan(run.input)[run.done], now).value.signer,
                     run, run.(done := run.done + 1))
  {
    hide Ready, Replaceable;
  }

  /** A run that ends, by a fault or otherwise, asks for nothing more. */
  lemma EndKeepsSafe(s: System, i: nat)
    requires Safe(s) && i < |s.runs|
    ensures Safe(s.(runs := s.runs[i := s.runs[i].(ended := true)]))
  {
    hide Covered, InHarmony;
    var run' := s.runs[i].(ended := true);
    assert Advances(s.cells.signer, s.cells.signer, s.runs[i], run');
    HarmonyKept(s.cells.signer, s.cells.signer, s.runs, i, run');
    forall run | run in s.runs[i := run']
      ensures Fits(s.cells, s.now, run)
    {
      assert run == run' || run in s.runs;
    }
  }

  /** A transaction that commits. */
  lemma CommitKeepsSafe(s: System, i: nat)
    requires Safe(s) && i < |s.runs| && CanStep(s.runs[i])
    requires Apply(s.cells, Plan(s.runs[i].input)[s.runs[i].done], s.now).Ok?
    ensures Safe(Next(s, Transaction(i)))
  {
    hide Ready, Replaceable, Fits, Agree, Accepts, Plan, Apply, Covered, Chained, Alone, Advances, WholeSecond;
    var run, s' := s.runs[i], Next(s, Transaction(i));
    assert run in s.runs;
    var run' := run.(done := run.done + 1);
    CoverageKept(s.cells, s.now, run);
    StepAdvances(s.cells, s.now, run);
    HarmonyKept(s.cells.signer, s'.cells.signer, s.runs, i, run');
    OwnRunStaysFit(s.cells, s.now, run);
    forall j | 0 <= j < |s.runs|
      ensures Fits(s'.cells, s.now, s'.runs[j])
    {
      if j != i {
        assert s.runs[j] in s.runs;
        OtherRunsStayFit(s.cells, s.now, run, s.runs[j]);
      }
    }
    SecondsKept(s.cells, s.now, run, s'.cells);
    forall token | token in s'.tokens
      ensures Honoured(s', token)
    {
      if Outstanding(token, s.now) {
        TokenSurvives(s, i, token);
      }
    }
  }

  lemma StartKeepsSafe(s: System, input: Input)
    requires Safe(s)
    ensures Safe(Next(s, Start(input)))
  {
    hide Covered, InHarmony, InstallFits, RetireFits, WholeSecond;
    if Admitted(s, input) {
      assert Fits(s.cells, s.now, Run(input, 0, false));
    }
  }

  lemma CoverageKept(cells: Cells, now: int, run: Run)
    requires Covered(cells, now) && Fits(cells, now, run) && CanStep(run) &&
               Apply(cells, Plan(run.input)[run.done], now).Ok?
    ensures Covered(Apply(cells, Plan(run.input)[run.done], now).value, now)
  {
    hide Covered, Fits, Apply, KeepsCover;
    NextKeepsCover(cells, now, run);
    CoverageStep(cells, Plan(run.input)[run.done], now);
  }

  lemma SecondsKept(cells: Cells, now: int, run: Run, cells': Cells)
    requires Fits(cells, now, run) && CanStep(run) && Apply(cells, Plan(run.input)[run.done], now) == Ok(cells')
    requires forall id | id in cells.signer :: WholeSecond(cells.signer[id].activeAt)
    ensures forall id | id in cells'.signer :: WholeSecond(cells'.signer[id].activeAt)
  {
    hide Ready, Replaceable, WholeSecond;
  }

  lemma ElapseKeepsSafe(s: System, time: nat)
    requires Safe(s)
    ensures Safe(Next(s, Elapse(time)))
  {
    hide Fits, InHarmony, Covered;
    var s' := Next(s, Elapse(time));
    CoverageLasts(s.cells, s.now, s'.now);
    forall run | run in s'.runs
      ensures Fits(s'.cells, s'.now, run)
    {
      FitLasts(s.cells, s.now, s'.now, run);
    }
  }

  /**
   * A token of a covered key is accepted at once if and only if the verifier's key was active in the whole second
   * the token names: an activation inside a second leaves a gap until the next one.
   */
  lemma FreshTokenAccepted(cells: Cells, now: int, id: string, until: int)
    requires Covered(cells, now) && Usable(cells.signer, id, now) && Signed(cells.signer, id, until, now).Some?
    ensures var token := Signed(cells.signer, id, until, now).value;
            && token.issued * SECOND <= now && token.expires * SECOND <= now + OVERLAP
            && token.expires * SECOND <= cells.signer[id].retireAt && Outstanding(token, now)
            && id in cells.verifier
            && (Accepts(cells.verifier, token, now) <==> cells.verifier[id].activeAt <= token.issued * SECOND)
  {
    assert HoldsLive(cells.signer, id, now);
    assert Backed(cells.verifier, id, cells.signer[id]);
  }

  lemma WholeSecondsReached(activeAt: int, now: int)
    requires WholeSecond(activeAt) && activeAt <= now
    ensures activeAt <= Floor(now) * SECOND
  {
  }

  lemma IssueKeepsSafe(s: System, id: string, until: int)
    requires Safe(s)
    ensures Safe(Next(s, Issue(id, until)))
  {
    hide InHarmony, Covered, Accepts, Fits, WholeSecond;
    var s' := Next(s, Issue(id, until));
    if s' != s {
      var token := Signed(s.cells.signer, id, until, s.now).value;
      FreshTokenAccepted(s.cells, s.now, id, until);
      CoveredKey(s.cells, s.now, id);
      WholeSecondsReached(s.cells.signer[id].activeAt, s.now);
      assert Honoured(s', token);
      forall other | other in s'.tokens
        ensures Honoured(s', other)
      {
        assert other == token || Honoured(s, other);
      }
    }
  }

  lemma CoveredKey(cells: Cells, now: int, id: string)
    requires Covered(cells, now) && Usable(cells.signer, id, now)
    ensures HoldsLive(cells.signer, id, now) && Backed(cells.verifier, id, cells.signer[id])
  {
    assert HoldsLive(cells.signer, id, now);
  }

  /**
   * Whatever provisioning runs do, interleaved in any order, stopped after any transaction and retried, the signer
   * stays covered and every token it has handed out is accepted until it expires.
   */
  lemma {:induction false} RunsKeepTokensGood(s: System, events: seq<Event>)
    requires Safe(s)
    ensures Safe(After(s, events))
    decreases |events|
  {
    hide Safe, Next;
    if events != [] {
      StepKeepsSafe(s, events[0]);
      RunsKeepTokensGood(Next(s, events[0]), events[1..]);
    }
  }

  lemma StepKeepsSafe(s: System, e: Event)
    requires Safe(s)
    ensures Safe(Next(s, e))
  {
    hide Safe, Apply, Admitted;
    match e
    case Elapse(time) => ElapseKeepsSafe(s, time);
    case Transaction(i) =>
      if i < |s.runs| && CanStep(s.runs[i]) {
        if Apply(s.cells, Plan(s.runs[i].input)[s.runs[i].done], s.now).Ok? {
          CommitKeepsSafe(s, i);
        } else {
          EndKeepsSafe(s, i);
        }
      }
    case Start(input) => StartKeepsSafe(s, input);
    case Abandon(i) =>
      if i < |s.runs| {
        EndKeepsSafe(s, i);
      }
    case Issue(id, until) => IssueKeepsSafe(s, id, until);
  }

  /**
   * The same from covered cells at rest, for any events whatever: runs started at any time if admitted then, one after
   * the other or side by side, each stopped after any transaction, given up and started again, while tokens are issued.
   */
  lemma RotationsAreSafe(cells: Cells, now: int, events: seq<Event>)
    requires Covered(cells, now) && forall id | id in cells.signer :: WholeSecond(cells.signer[id].activeAt)
    ensures var s := After(System(cells, now, [], []), events);
            && Covered(s.cells, s.now)
            && forall token | token in s.tokens && Outstanding(token, s.now) :: Accepts(s.cells.verifier, token, s.now)
  {
    hide Covered, WholeSecond, After, Accepts;
    RunsKeepTokensGood(System(cells, now, [], []), events);
    var s := After(System(cells, now, [], []), events);
    assert forall token | token in s.tokens :: Honoured(s, token);
  }

  // ---------------------------------------------------------------- what is admitted

  /** A run that stopped before its key was in both cells may be given up and started again from the beginning. */
  lemma RetryIsAdmitted(s: System, i: nat)
    requires Safe(s) && i < |s.runs| && Installing(s.runs[i])
    ensures Admitted(Next(s, Abandon(i)), s.runs[i].input)
  {
    hide InstallFits, WholeSecond, InHarmony;
    var run, s' := s.runs[i], Next(s, Abandon(i));
    assert run in s.runs;
    RetryInHarmony(s.cells.signer, s.runs, i);
  }

  /** The same input with no more to do. */
  predicate NoMore(run': Run, run: Run) {
    && run'.input == run.input && (Installing(run') ==> Installing(run)) && (CanStep(run') ==> CanStep(run))
    && (CanStep(run') ==> run'.done <= run.done)
  }

  lemma NoMoreAgrees(signer: Ring, a: Run, b: Run, a': Run, b': Run)
    requires Agree(a, b) && Chained(signer, a, b) && NoMore(a', a) && NoMore(b', b)
    ensures Agree(a', b') && Chained(signer, a', b')
  {
    hide Plan;
  }

  lemma NoMoreIsAlone(a: Run, other: Run, b: Run, a': Run, other': Run, b': Run)
    requires (Alone(a, other, b) || Alone(other, a, b)) && NoMore(a', a) && NoMore(other', other) && NoMore(b', b)
    ensures Alone(a', other', b')
  {
    hide Plan;
  }

  /** Run i given up, and its input started again at the end. */
  function Retried(runs: seq<Run>, i: nat): (out: seq<Run>)
    requires i < |runs|
    ensures |out| == |runs| + 1
  {
    runs[i := runs[i].(ended := true)] + [Run(runs[i].input, 0, false)]
  }

  function Origin(runs: seq<Run>, i: nat, j: nat): Run
    requires i < |runs| && j <= |runs|
  {
    if j == |runs| then runs[i] else runs[j]
  }

  lemma RetriedDoNoMore(runs: seq<Run>, i: nat)
    requires i < |runs| && Installing(runs[i])
    ensures forall j | 0 <= j <= |runs| :: NoMore(Retried(runs, i)[j], Origin(runs, i, j))
    ensures !Installing(Retried(runs, i)[i])
  {
    hide Plan;
  }

  lemma IdleIsAlone(a: Run, other: Run, b: Run)
    requires !Installing(a) || !Installing(other)
    ensures Alone(a, other, b)
  {
  }

  lemma RetryInHarmony(signer: Ring, runs: seq<Run>, i: nat)
    requires InHarmony(signer, runs) && i < |runs| && Installing(runs[i])
    ensures InHarmony(signer, Retried(runs, i))
  {
    var out := Retried(runs, i);
    RetriedDoNoMore(runs, i);
    hide Agree, Chained, Alone, NoMore, Installing, Retried;
    assert forall j | 0 <= j <= |runs| :: Origin(runs, i, j) in runs;
    forall j, k | 0 <= j <= |runs| && 0 <= k <= |runs|
      ensures Agree(out[j], out[k]) && Chained(signer, out[j], out[k])
    {
      NoMoreAgrees(signer, Origin(runs, i, j), Origin(runs, i, k), out[j], out[k]);
    }
    forall j, k, l | 0 <= j < k <= |runs| && 0 <= l <= |runs|
      ensures Alone(out[j], out[k], out[l])
    {
      if j == i || k == i {
        IdleIsAlone(out[j], out[k], out[l]);
      } else {
        var a, other, b := Origin(runs, i, j), Origin(runs, i, k), Origin(runs, i, l);
        assert Alone(a, other, b) || Alone(other, a, b);
        NoMoreIsAlone(a, other, b, out[j], out[k], out[l]);
      }
    }
  }

  /** Two successive rotations, the second retiring the key the first brings in, may even be under way together. */
  lemma SuccessiveRotationsAreAdmitted(cells: Cells, now: int, one: Input, two: Input)
    requires Covered(cells, now) && one.id != two.id && one.id !in cells.signer && two.id !in cells.signer
    requires WholeSecond(one.key.activeAt) && WholeSecond(two.key.activeAt)
    requires one.previous.Some? && one.previous.value.id in cells.signer && RetireFits(cells, now, one)
    requires two.previous.Some? && two.previous.value.id == one.id
    requires two.previous.value.retireAt <= one.key.retireAt
    ensures var s := System(cells, now, [], []);
            Admitted(s, one) && Admitted(Next(s, Start(one)), two)
  {
    hide InHarmony, WholeSecond, After, Backed;
    var s, a, b := System(cells, now, [], []), Run(one, 0, false), Run(two, 0, false);
    InStep(cells.signer, a, b);
    assert [] + [a] == [a] && [a] + [b] == [a, b];
    assert Next(s, Start(one)) == s.(runs := [a]);
  }

  lemma InStep(signer: Ring, a: Run, b: Run)
    requires Agree(a, a) && Agree(b, b) && Agree(a, b) && Agree(b, a)
    requires Chained(signer, a, a) && Chained(signer, b, b) && Chained(signer, a, b) && Chained(signer, b, a)
    requires a.input.id != b.input.id
    ensures InHarmony(signer, [a]) && InHarmony(signer, [a, b])
  {
    hide Agree, Chained;
  }

  // ---------------------------------------------------------------- a completed run

  /** A run that completes, whatever an earlier crashed one left, leaves both cells with the requested contract. */
  lemma CompletedRunAgrees(cells: Cells, input: Input, times: seq<int>)
    requires Carried(cells, Plan(input), times).1 == Completed
    requires forall t | t in times :: Live(input.key, t)
    requires input.previous.Some? ==> input.previous.value.id != input.id
    ensures var cells' := Carried(cells, Plan(input), times).0;
            && input.id in cells'.verifier && cells'.verifier[input.id] == input.key
            && input.id in cells'.signer && cells'.signer[input.id] == input.key
            && (input.previous.Some? ==>
                  var p := input.previous.value;
                  && p.id in cells'.verifier && cells'.verifier[p.id].retireAt == p.retireAt
                  && p.id in cells'.signer && cells'.signer[p.id].retireAt == p.retireAt)
  {
    hide Ready, Replaceable;
    var plan := Plan(input);
    assert times[0] in times && times[1] in times;
    var one := Apply(cells, plan[0], times[0]).value;
    assert Carried(one, plan[1..], times[1..]).1 == Completed;
    var two := Apply(one, plan[1], times[1]).value;
    assert plan[1..][0] == plan[1] && plan[1..][1..] == plan[2..] && times[1..][1..] == times[2..];
    assert Carried(cells, plan, times) == Carried(two, plan[2..], times[2..]);
    if input.previous.Some? {
      var three := Apply(two, plan[2], times[2]).value;
      assert plan[2..][0] == plan[2] && plan[2..][1..] == plan[3..] && times[2..][1..] == times[3..];
      assert Carried(two, plan[2..], times[2..]) == Carried(three, plan[3..], times[3..]);
      assert plan[3..][0] == plan[3] && plan[3..][1..] == [];
      assert Carried(three, plan[3..], times[3..]).0 == Apply(three, plan[3], times[3]).value;
    } else {
      assert plan[2..] == [];
      assert Carried(two, plan[2..], times[2..]).0 == two;
    }
  }

  // ---------------------------------------------------------------- why each condition is needed

  /** Installing a key again with an earlier retirement and stopping there leaves a signer whose tokens are refused. */
  lemma ShorteningInstallStrandsTokens()
    ensures var ring: Ring := map["k" := Key("s", 0, 100 * MINUTE)];
            var run := Input("k", Key("s", 0, 30 * MINUTE), None);
            var (cells, ending) := Carried(Cells(ring, ring), Plan(run), [MINUTE]);
            && ending == Crashed
            && Picked(cells.signer, "k", 40 * MINUTE)
            && var token := Signed(cells.signer, "k", 60 * MINUTE, 40 * MINUTE);
               token.Some? && !Accepts(cells.verifier, token.value, 40 * MINUTE)
  {
    var ring: Ring := map["k" := Key("s", 0, 100 * MINUTE)];
    var key := Key("s", 0, 30 * MINUTE);
    var ring' := Pruned(ring["k" := key], MINUTE);
    assert ring' == map["k" := key];
    assert ring'["k"].activeAt <= MINUTE && ring'["k"].retireAt > MINUTE + OVERLAP;
    var plan := Plan(Input("k", key, None));
    assert Apply(Cells(ring, ring), plan[0], MINUTE) == Ok(Cells(ring', ring));
    assert [MINUTE][1..] == [] && plan[1..] != [];
    assert Carried(Cells(ring', ring), plan[1..], []) == (Cells(ring', ring), Crashed);
    assert Usable(ring, "k", 40 * MINUTE);
  }

  /** A retirement later than the verifier's own, stopped after the signer, does the same. */
  lemma LengtheningRetirementStrandsTokens()
    ensures var ring: Ring := map["old" := Key("s", MINUTE, 30 * MINUTE), "new" := Key("t", 0, 200 * MINUTE)];
            var step := Retire(Signer, "old", 60 * MINUTE);
            var cells := Apply(Cells(ring, ring), step, 2 * MINUTE);
            && cells.Ok?
            && Picked(cells.value.signer, "old", 40 * MINUTE)
            && var token := Signed(cells.value.signer, "old", 60 * MINUTE, 40 * MINUTE);
               token.Some? && !Accepts(cells.value.verifier, token.value, 40 * MINUTE)
  {
    var ring: Ring := map["old" := Key("s", MINUTE, 30 * MINUTE), "new" := Key("t", 0, 200 * MINUTE)];
    assert "new" in ring && ring["new"].activeAt <= 60 * MINUTE - OVERLAP;
    var ring' := ring["old" := Key("s", MINUTE, 60 * MINUTE)];
    assert Apply(Cells(ring, ring), Retire(Signer, "old", 60 * MINUTE), 2 * MINUTE) == Ok(Cells(ring, ring'));
    assert Usable(ring', "old", 40 * MINUTE);
  }

  /** Two runs retiring one key at different times can leave the signer ahead even though both complete. */
  lemma DifferentRetirementsUncover(cells: Cells, now: int, id: string, first: int, second: int)
    requires Covered(cells, now) && first < second
    requires Apply(cells, Retire(Signer, id, first), now).Ok?
    requires var one := Apply(cells, Retire(Signer, id, first), now).value;
             && Apply(one, Retire(Verifier, id, first), now).Ok?
             && Apply(Apply(one, Retire(Verifier, id, first), now).value, Retire(Signer, id, second), now).Ok?
    ensures var one := Apply(cells, Retire(Signer, id, first), now).value;
            var two := Apply(one, Retire(Verifier, id, first), now).value;
            !Covered(Apply(two, Retire(Signer, id, second), now).value, now)
  {
    hide Ready, Replaceable;
    var one := Apply(cells, Retire(Signer, id, first), now).value;
    var two := Apply(one, Retire(Verifier, id, first), now).value;
    var three := Apply(two, Retire(Signer, id, second), now).value;
    assert HoldsLive(three.signer, id, now) && !Backed(three.verifier, id, three.signer[id]);
  }

  /** A run that installs a key while another retires it can do so too. */
  lemma InstallAcrossRetirementUncovers(cells: Cells, now: int, id: string, key: Key, at: int)
    requires at < key.retireAt && Apply(cells, Retire(Verifier, id, at), now).Ok?
    requires Apply(Apply(cells, Retire(Verifier, id, at), now).value, Install(Signer, id, key), now).Ok?
    ensures var retired := Apply(cells, Retire(Verifier, id, at), now).value;
            !Covered(Apply(retired, Install(Signer, id, key), now).value, now)
  {
    hide Ready, Replaceable;
    var retired := Apply(cells, Retire(Verifier, id, at), now).value;
    var done := Apply(retired, Install(Signer, id, key), now).value;
    assert HoldsLive(done.signer, id, now) && !Backed(done.verifier, id, done.signer[id]);
  }

  /** Pruning runs cell by cell, so the verifier may drop a long retired key the signer still lists. */
  lemma PrunedKeyLingersInSigner(cells: Cells, now: int, id: string, step: Step)
    requires step.Install? && step.side.Verifier? && step.id != id && Apply(cells, step, now).Ok?
    requires id in cells.signer && (id in cells.verifier ==> !Live(cells.verifier[id], now))
    ensures id in Apply(cells, step, now).value.signer && id !in Apply(cells, step, now).value.verifier
  {
    hide Ready;
  }
}
