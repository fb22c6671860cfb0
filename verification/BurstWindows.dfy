/**
 * The learned burst cap over whole runs. Beside the governor runs a log of its windows: when each opened, the
 * cap in force at that moment, and the times of the requests dispatched in it.
 */
module BurstWindows {
  import opened Wrappers
  import opened RateGovernor

  datatype Window = Window(start: int, cap: int, times: seq<int>)

  datatype Event =
    | Look(cost: nat)
    | Dispatch(cost: nat)
    | Answer(headers: Headers)
    | Rejected(burst: bool, attached: Option<Headers>)

  datatype World = World(g: Governor, log: seq<Window>, closed: nat)

  predicate Enabled(w: World, now: int, e: Event) {
    e.Dispatch? ==> Delay(w.g, now, e.cost) == 0
  }

  function Apply(w: World, now: int, e: Event): World
    requires |w.log| > 0
  {
    match e
    case Look(cost) => w.(g := Drip(w.g, now))
    case Dispatch(cost) =>
      var g := Commit(w.g, now, cost);
      var last := w.log[|w.log| - 1];
      if now - w.g.windowStart >= 1_000 then
        World(g, w.log + [Window(now, g.cap, [now])], if w.g.windowCount > 0 then w.closed + 1 else w.closed)
      else
        World(g, w.log[|w.log| - 1 := last.(times := last.times + [now])], w.closed)
    case Answer(headers) => w.(g := Observe(w.g, now, headers))
    case Rejected(burst, attached) => w.(g := AfterThrottle(w.g, now, burst, attached))
  }

  /** A governor as constructed from any options; its first window is the one the zero start time stands for. */
  predicate Start(w: World, now: int) {
    && w.g.level == 0.0 && w.g.lastDripAt == now
    && w.g.windowStart == 0 && w.g.windowCount == 0 && w.g.cleanWindows == 0
    && 0 <= now
    && w.log == [Window(0, w.g.cap, [])]
    && w.closed == 0
  }

  predicate SoundCaps(g: Governor) {
    1 <= g.minCap <= g.cap
  }

  ghost predicate Legal(w: World, now: int, events: seq<(int, Event)>)
    decreases |events|
  {
    && |w.log| > 0
    && (events != [] ==>
          && now <= events[0].0
          && Enabled(w, events[0].0, events[0].1)
          && Legal(Apply(w, events[0].0, events[0].1), events[0].0, events[1..]))
  }

  ghost function Exec(w: World, now: int, events: seq<(int, Event)>): World
    requires Legal(w, now, events)
    decreases |events|
  {
    if events == [] then w else Exec(Apply(w, events[0].0, events[0].1), events[0].0, events[1..])
  }

  function LastClock(now: int, events: seq<(int, Event)>): int
    decreases |events|
  {
    if events == [] then now else LastClock(events[0].0, events[1..])
  }

  predicate WindowOk(window: Window) {
    && window.cap >= 1
    && |window.times| <= window.cap
    && forall i | 0 <= i < |window.times| :: window.start <= window.times[i] < window.start + 1_000
  }

  predicate LogOk(log: seq<Window>) {
    && (forall k | 0 <= k < |log| :: WindowOk(log[k]))
    && (forall j, k | 0 <= j < k < |log| :: log[j].start + 1_000 <= log[k].start)
  }

  predicate Invariant(w: World, now: int, minCap: int, cap0: int) {
    && |w.log| > 0
    && LogOk(w.log)
    && w.log[|w.log| - 1].start == w.g.windowStart <= now
    && |w.log[|w.log| - 1].times| == w.g.windowCount
    && w.g.cap <= w.log[|w.log| - 1].cap
    && w.g.minCap == minCap
    && 1 <= minCap <= w.g.cap
    && 0 <= w.g.cleanWindows < BURST_RECOVERY_WINDOWS
    && BURST_RECOVERY_WINDOWS * w.g.cap + w.g.cleanWindows <= BURST_RECOVERY_WINDOWS * cap0 + w.closed
  }

  lemma FreeMeansNoBurstWait(g: Governor, now: int, cost: nat)
    requires Delay(g, now, cost) == 0
    ensures BurstWait(g, now) == 0
  {
  }

  lemma DispatchKeepsLog(w: World, before: int, now: int, cost: nat, minCap: int, cap0: int)
    requires Invariant(w, before, minCap, cap0) && before <= now && Enabled(w, now, Dispatch(cost))
    ensures LogOk(Apply(w, now, Dispatch(cost)).log)
  {
    var last := w.log[|w.log| - 1];
    var log := Apply(w, now, Dispatch(cost)).log;
    if now - w.g.windowStart >= 1_000 {
      assert forall k | 0 <= k < |w.log| :: log[k] == w.log[k];
      assert WindowOk(log[|w.log|]);
      assert forall k | 0 <= k < |w.log| - 1 :: w.log[k].start + 1_000 <= last.start;
    } else {
      FreeMeansNoBurstWait(w.g, now, cost);
      assert WindowOk(last);
      assert WindowOk(log[|w.log| - 1]);
      assert forall k | 0 <= k < |log| - 1 :: log[k] == w.log[k];
    }
  }

  lemma StepKeepsInvariant(w: World, before: int, now: int, e: Event, minCap: int, cap0: int)
    requires Invariant(w, before, minCap, cap0) && before <= now && Enabled(w, now, e)
    ensures Invariant(Apply(w, now, e), now, minCap, cap0)
  {
    if e.Dispatch? {
      DispatchKeepsLog(w, before, now, e.cost, minCap, cap0);
    }
  }

  lemma {:induction false} RunKeepsInvariant(w: World, now: int, events: seq<(int, Event)>, minCap: int, cap0: int)
    requires Invariant(w, now, minCap, cap0) && Legal(w, now, events)
    ensures Invariant(Exec(w, now, events), LastClock(now, events), minCap, cap0)
    decreases |events|
  {
    if events != [] {
      StepKeepsInvariant(w, now, events[0].0, events[0].1, minCap, cap0);
      RunKeepsInvariant(Apply(w, events[0].0, events[0].1), events[0].0, events[1..], minCap, cap0);
    }
  }

  /**
   * When requests go out only at delay zero, every window holds at most the cap in force when it opened, windows
   * open at least a second apart, and the cap never leaves [minimum, first cap + closed windows / 12].
   */
  lemma WindowsRespectTheirCaps(w: World, now: int, events: seq<(int, Event)>)
    requires Start(w, now) && SoundCaps(w.g) && Legal(w, now, events)
    ensures var end := Exec(w, now, events);
            && LogOk(end.log)
            && w.g.minCap <= end.g.cap <= w.g.cap + end.closed / BURST_RECOVERY_WINDOWS
  {
    RunKeepsInvariant(w, now, events, w.g.minCap, w.g.cap);
  }

  // ---------------------------------------------------------------- any one-second stretch

  function CountIn(times: seq<int>, from: int): nat {
    if times == [] then 0
    else CountIn(times[..|times| - 1], from) + if from <= times[|times| - 1] < from + 1_000 then 1 else 0
  }

  function TotalIn(log: seq<Window>, from: int): nat {
    if log == [] then 0 else TotalIn(log[..|log| - 1], from) + CountIn(log[|log| - 1].times, from)
  }

  function CapAt(log: seq<Window>, k: int): int {
    if 0 <= k < |log| then log[k].cap else 0
  }

  lemma {:induction false} CountBound(times: seq<int>, from: int)
    ensures CountIn(times, from) <= |times|
    ensures (forall i | 0 <= i < |times| :: !(from <= times[i] < from + 1_000)) ==> CountIn(times, from) == 0
  {
    if times != [] {
      CountBound(times[..|times| - 1], from);
    }
  }

  /** A window opening a second or more before the stretch, or after it, has no request in it. */
  lemma {:induction false} TotalOutside(log: seq<Window>, from: int)
    requires forall k | 0 <= k < |log| :: WindowOk(log[k])
    requires forall k | 0 <= k < |log| :: log[k].start + 1_000 <= from || from + 1_000 <= log[k].start
    ensures TotalIn(log, from) == 0
  {
    if log != [] {
      var last := log[|log| - 1];
      assert WindowOk(last);
      CountBound(last.times, from);
      TotalOutside(log[..|log| - 1], from);
    }
  }

  /** The last window and the one before it hold what the last two caps allow, when no other reaches the stretch. */
  lemma LastTwoWindows(log: seq<Window>, from: int)
    requires LogOk(log) && log != [] && log[|log| - 1].start < from + 1_000
    ensures var n := |log| - 1; TotalIn(log, from) <= CapAt(log, n - 1) + CapAt(log, n)
  {
    hide CountIn;
    var n := |log| - 1;
    var front := log[..n];
    assert WindowOk(log[n]);
    CountBound(log[n].times, from);
    if n > 0 {
      assert WindowOk(log[n - 1]);
      CountBound(front[n - 1].times, from);
      TotalOutside(front[..n - 1], from);
    }
  }

  /** A window that opens after the stretch adds nothing to it. */
  lemma LaterWindowAddsNothing(log: seq<Window>, from: int)
    requires LogOk(log) && log != [] && from + 1_000 <= log[|log| - 1].start
    ensures LogOk(log[..|log| - 1]) && TotalIn(log, from) == TotalIn(log[..|log| - 1], from)
  {
    hide CountIn;
    assert WindowOk(log[|log| - 1]);
    CountBound(log[|log| - 1].times, from);
  }

  /**
   * Any half-open one-second stretch meets at most two windows, next to each other, so it holds at most the sum
   * of their caps.
   */
  lemma {:induction false} StretchMeetsTwoWindows(log: seq<Window>, from: int) returns (k: int)
    requires LogOk(log)
    ensures -1 <= k < |log| && TotalIn(log, from) <= CapAt(log, k) + CapAt(log, k + 1)
  {
    hide LogOk;
    k := -1;
    if log != [] {
      var n := |log| - 1;
      if from + 1_000 <= log[n].start {
        LaterWindowAddsNothing(log, from);
        k := StretchMeetsTwoWindows(log[..n], from);
        CapsAreNotNegative(log, k + 1);
      } else {
        LastTwoWindows(log, from);
        k := n - 1;
      }
    }
  }

  lemma CapsAreNotNegative(log: seq<Window>, k: int)
    requires LogOk(log)
    ensures CapAt(log, k) >= 0
  {
    if 0 <= k < |log| {
      assert WindowOk(log[k]);
    }
  }

  lemma AnySecondHoldsTwoCapsAtMost(w: World, now: int, events: seq<(int, Event)>, from: int)
    requires Start(w, now) && SoundCaps(w.g) && Legal(w, now, events)
    ensures var log := Exec(w, now, events).log;
            exists k :: -1 <= k < |log| && TotalIn(log, from) <= CapAt(log, k) + CapAt(log, k + 1)
  {
    WindowsRespectTheirCaps(w, now, events);
    var k := StretchMeetsTwoWindows(Exec(w, now, events).log, from);
  }

  // ---------------------------------------------------------------- for which options

  predicate WithinCaps(log: seq<Window>) {
    forall k | 0 <= k < |log| :: |log[k].times| <= log[k].cap
  }

  /** Every run of the governor keeps every window within the cap it opened with. */
  ghost predicate AlwaysWithinCaps(w: World, now: int) {
    forall events | Legal(w, now, events) :: WithinCaps(Exec(w, now, events).log)
  }

  ghost predicate NeverBelowMinimum(w: World, now: int) {
    forall events | Legal(w, now, events) :: w.g.minCap <= Exec(w, now, events).g.cap
  }

  lemma OneStepOn(w: World, now: int, t: int, e: Event, rest: seq<(int, Event)>)
    requires |w.log| > 0 && now <= t && Enabled(w, t, e) && Legal(Apply(w, t, e), t, rest)
    ensures Legal(w, now, [(t, e)] + rest) && Exec(w, now, [(t, e)] + rest) == Exec(Apply(w, t, e), t, rest)
    ensures LastClock(now, [(t, e)] + rest) == LastClock(t, rest)
  {
    hide Enabled, Apply;
    assert ([(t, e)] + rest)[1..] == rest;
  }

  lemma {:induction false} Compose(w: World, now: int, a: seq<(int, Event)>, b: seq<(int, Event)>)
    requires Legal(w, now, a) && Legal(Exec(w, now, a), LastClock(now, a), b)
    ensures Legal(w, now, a + b) && Exec(w, now, a + b) == Exec(Exec(w, now, a), LastClock(now, a), b)
    decreases |a|
  {
    hide Enabled, Apply;
    if a == [] {
      assert a + b == b;
    } else {
      assert (a + b)[1..] == a[1..] + b;
      Compose(Apply(w, a[0].0, a[0].1), a[0].0, a[1..], b);
    }
  }

  /** Enough burst rejections bring the cap to zero when the minimum allows it; nothing else changes. */
  lemma {:induction false} HalvingReachesZero(w: World, now: int) returns (events: seq<(int, Event)>)
    requires |w.log| > 0 && (w.g.minCap <= 0 || w.g.cap <= 0)
    ensures Legal(w, now, events) && LastClock(now, events) == now
    ensures var end := Exec(w, now, events);
            end.g.cap <= 0 && end == w.(g := w.g.(cap := end.g.cap, cleanWindows := end.g.cleanWindows))
    decreases if w.g.cap <= 0 then 0 else w.g.cap
  {
    events := [];
    if w.g.cap > 0 {
      var e := Rejected(true, None);
      var more := HalvingReachesZero(Apply(w, now, e), now);
      OneStepOn(w, now, now, e, more);
      events := [(now, e)] + more;
    }
  }

  /** With an empty bucket and no recent window, one unit is free at any drip rate. */
  lemma IdleDispatchIsFree(g: Governor, now: int)
    requires g.level == 0.0 && now - g.windowStart >= 1_000
    ensures Delay(g, now, 1) == 0
  {
    if g.dripRate < 0.0 {
      NegativeDripNeverWaits(g, now, 1);
    } else {
      DrainsDown(if now < g.lastDripAt then 0 else now - g.lastDripAt, g.dripRate);
      assert Drip(g, now).level == 0.0;
    }
  }

  function Later(now: int): int {
    if now < 1_000 then 1_000 else now
  }

  /** A window opened at a cap of zero or less lets its first request through all the same. */
  lemma EmptyCapLetsOneThrough(w: World, now: int) returns (events: seq<(int, Event)>)
    requires |w.log| > 0 && w.g.level == 0.0 && w.g.windowStart == 0 && w.g.windowCount == 0 && w.g.cap <= 0
    ensures Legal(w, now, events) && !WithinCaps(Exec(w, now, events).log)
  {
    var t, e := Later(now), Dispatch(1);
    IdleDispatchIsFree(w.g, t);
    var next := Apply(w, t, e);
    assert next.log[|w.log|] == Window(t, w.g.cap, [t]);
    events := [(t, e)];
    OneStepOn(w, now, t, e, []);
    assert [(t, e)] + [] == [(t, e)];
  }

  const RESET := Headers(None, Some(Bucket(Some(0.0), Some(1.0))))

  /** After an answer that reports an empty bucket, another unit fits as long as the window has room. */
  lemma RoomyDispatch(w: World, now: int) returns (events: seq<(int, Event)>)
    requires |w.log| > 0 && w.g.windowStart == now && w.g.windowCount < w.g.cap
    ensures Legal(w, now, events) && LastClock(now, events) == now
    ensures var end, last := Exec(w, now, events), w.log[|w.log| - 1];
            && end.log == w.log[|w.log| - 1 := last.(times := last.times + [now])]
            && end.g.windowStart == now && end.g.cap == w.g.cap && end.g.windowCount == w.g.windowCount + 1
  {
    var next := Apply(w, now, Answer(RESET));
    assert Drip(next.g, now) == next.g && Fits(next.g, 1);
    OneStepOn(next, now, now, Dispatch(1), []);
    events := [(now, Answer(RESET))] + ([(now, Dispatch(1))] + []);
    OneStepOn(w, now, now, Answer(RESET), [(now, Dispatch(1))] + []);
  }

  /** So a window can be filled up to the cap in force, whatever it opened with. */
  lemma {:induction false} WindowFills(w: World, now: int, n: nat) returns (events: seq<(int, Event)>)
    requires |w.log| > 0 && w.g.windowStart == now && w.g.windowCount + n <= w.g.cap
    ensures Legal(w, now, events)
    ensures var end := Exec(w, now, events);
            && |end.log| == |w.log|
            && end.log[|w.log| - 1].cap == w.log[|w.log| - 1].cap
            && |end.log[|w.log| - 1].times| == |w.log[|w.log| - 1].times| + n
    decreases n
  {
    events := [];
    if n > 0 {
      var first := RoomyDispatch(w, now);
      var more := WindowFills(Exec(w, now, first), now, n - 1);
      Compose(w, now, first, more);
      events := first + more;
    }
  }

  /** A rejection lifts a cap that started below its minimum, in the middle of a window that opened with less. */
  lemma LiftedCapOverfills(w: World, now: int) returns (events: seq<(int, Event)>)
    requires Start(w, now) && 1 <= w.g.cap < w.g.minCap
    ensures Legal(w, now, events) && !WithinCaps(Exec(w, now, events).log)
  {
    var t := Later(now);
    IdleDispatchIsFree(w.g, t);
    var begun := Apply(w, t, Dispatch(1));
    assert begun.log == w.log + [Window(t, w.g.cap, [t])];
    var lifted := Apply(begun, t, Rejected(true, None));
    assert lifted.g.cap == w.g.minCap && lifted.log == begun.log;
    var fill := WindowFills(lifted, t, w.g.cap);
    OneStepOn(begun, t, t, Rejected(true, None), fill);
    var rest := [(t, Rejected(true, None))] + fill;
    OneStepOn(w, now, t, Dispatch(1), rest);
    events := [(t, Dispatch(1))] + rest;
    assert |Exec(w, now, events).log[1].times| == 1 + w.g.cap;
  }

  lemma UnsoundCapsBreak(w: World, now: int) returns (events: seq<(int, Event)>)
    requires Start(w, now) && !SoundCaps(w.g)
    ensures Legal(w, now, events) && !WithinCaps(Exec(w, now, events).log)
  {
    hide Enabled, Apply, WithinCaps;
    if 1 <= w.g.cap < w.g.minCap {
      events := LiftedCapOverfills(w, now);
    } else {
      var halvings := HalvingReachesZero(w, now);
      var rest := EmptyCapLetsOneThrough(Exec(w, now, halvings), now);
      Compose(w, now, halvings, rest);
      events := halvings + rest;
    }
  }

  /**
   * Windows keep their opening caps in every run if and only if the configured minimum is at least one and the first
   * cap at least the minimum: a lower minimum lets the cap reach zero, where a fresh window admits one request all the
   * same, and a lower first cap is lifted by a rejection in the middle of a window.
   */
  lemma CapsHoldExactly(w: World, now: int)
    requires Start(w, now)
    ensures AlwaysWithinCaps(w, now) <==> SoundCaps(w.g)
  {
    hide Start, Apply, Enabled;
    if SoundCaps(w.g) {
      forall events | Legal(w, now, events)
        ensures WithinCaps(Exec(w, now, events).log)
      {
        WindowsRespectTheirCaps(w, now, events);
        assert forall k | 0 <= k < |Exec(w, now, events).log| :: WindowOk(Exec(w, now, events).log[k]);
      }
    } else {
      var events := UnsoundCapsBreak(w, now);
      assert Legal(w, now, events);
    }
  }

  lemma {:induction false} MinimumKept(w: World, now: int, events: seq<(int, Event)>)
    requires Legal(w, now, events) && w.g.minCap <= w.g.cap
    ensures Exec(w, now, events).g.minCap == w.g.minCap <= Exec(w, now, events).g.cap
    decreases |events|
  {
    if events != [] {
      MinimumKept(Apply(w, events[0].0, events[0].1), events[0].0, events[1..]);
    }
  }

  /** And the cap never falls below the configured minimum if and only if it does not start there. */
  lemma MinimumHoldsExactly(w: World, now: int)
    requires Start(w, now)
    ensures NeverBelowMinimum(w, now) <==> w.g.minCap <= w.g.cap
  {
    if w.g.minCap <= w.g.cap {
      forall events | Legal(w, now, events)
        ensures w.g.minCap <= Exec(w, now, events).g.cap
      {
        MinimumKept(w, now, events);
      }
    } else {
      assert Legal(w, now, []);
      assert Exec(w, now, []).g.cap < w.g.minCap;
    }
  }

  // ---------------------------------------------------------------- earning the cap back

  /** How many of the windows before the last one held a request. */
  function Used(log: seq<Window>): nat {
    if |log| <= 1 then 0 else (if log[0].times != [] then 1 else 0) + Used(log[1..])
  }

  lemma {:induction false} UsedGrows(log: seq<Window>, next: Window)
    requires log != []
    ensures Used(log + [next]) == Used(log) + if log[|log| - 1].times != [] then 1 else 0
  {
    if |log| > 1 {
      assert (log + [next])[1..] == log[1..] + [next];
      UsedGrows(log[1..], next);
    }
  }

  lemma {:induction false} UsedIgnoresLast(log: seq<Window>, last: Window)
    requires log != []
    ensures Used(log[|log| - 1 := last]) == Used(log)
  {
    if |log| > 1 {
      assert log[|log| - 1 := last][1..] == log[1..][|log| - 2 := last];
      UsedIgnoresLast(log[1..], last);
    }
  }

  /** The governor counts the requests of the last window of the log, and fewer than twelve clean windows. */
  predicate Linked(w: World) {
    && |w.log| > 0 && |w.log[|w.log| - 1].times| == w.g.windowCount
    && 0 <= w.g.cleanWindows < BURST_RECOVERY_WINDOWS
  }

  predicate Quiet(e: Event) {
    e.Rejected? ==> !e.burst
  }

  function Earned(w: World): int {
    BURST_RECOVERY_WINDOWS * w.g.cap + w.g.cleanWindows
  }

  lemma QuietStepEarns(w: World, now: int, e: Event)
    requires Linked(w) && Quiet(e)
    ensures var t := Apply(w, now, e); Linked(t) && Earned(t) - Earned(w) == Used(t.log) - Used(w.log)
  {
    if e.Dispatch? {
      var last := w.log[|w.log| - 1];
      if now - w.g.windowStart >= 1_000 {
        UsedGrows(w.log, Window(now, Commit(w.g, now, e.cost).cap, [now]));
      } else {
        UsedIgnoresLast(w.log, last.(times := last.times + [now]));
      }
    }
  }

  lemma {:induction false} QuietRunEarns(w: World, now: int, events: seq<(int, Event)>)
    requires Linked(w) && Legal(w, now, events) && forall e | e in events :: Quiet(e.1)
    ensures var t := Exec(w, now, events); Linked(t) && Earned(t) - Earned(w) == Used(t.log) - Used(w.log)
    decreases |events|
  {
    hide Apply, Enabled, Earned, Linked;
    if events != [] {
      QuietStepEarns(w, events[0].0, events[0].1);
      QuietRunEarns(Apply(w, events[0].0, events[0].1), events[0].0, events[1..]);
    }
  }

  /**
   * Without a burst rejection the cap rises by exactly one for every twelve used windows that close, counting the
   * clean ones it began with.
   */
  lemma CapIsEarnedBack(w: World, now: int, events: seq<(int, Event)>)
    requires Linked(w) && Legal(w, now, events) && forall e | e in events :: Quiet(e.1)
    ensures var t := Exec(w, now, events);
            var windows := w.g.cleanWindows + Used(t.log) - Used(w.log);
            t.g.cap == w.g.cap + windows / 12 && t.g.cleanWindows == windows % 12
  {
    QuietRunEarns(w, now, events);
  }

  /** And a burst rejection halves it, not below the minimum, and starts the count afresh. */
  lemma RejectionThenRecovery(w: World, now: int, attached: Option<Headers>, events: seq<(int, Event)>)
    requires Linked(w) && Legal(Apply(w, now, Rejected(true, attached)), now, events)
    requires forall e | e in events :: Quiet(e.1)
    ensures var t := Exec(Apply(w, now, Rejected(true, attached)), now, events);
            var windows := Used(t.log) - Used(w.log);
            && t.g.cleanWindows == windows % 12
            && (w.g.cap / 2 >= w.g.minCap ==> t.g.cap == w.g.cap / 2 + windows / 12)
            && (w.g.cap / 2 < w.g.minCap ==> t.g.cap == w.g.minCap + windows / 12)
  {
    CapIsEarnedBack(Apply(w, now, Rejected(true, attached)), now, events);
  }
}
