/** Waiting as long as the governor says is enough, and when it never can be. */
module Waiting {
  import opened RateGovernor

  lemma WaitDrains(units: real, rate: real, ms: int)
    requires rate > 0.0 && ms >= WaitFor(units, rate)
    ensures Drained(ms, rate) >= units
  {
    var exact := units / rate * 1_000.0;
    assert ms as real >= exact;
    assert ms as real / 1_000.0 >= units / rate;
    Scale(ms as real / 1_000.0, units / rate, rate);
    assert units / rate * rate == units;
  }

  lemma Scale(a: real, b: real, rate: real)
    requires a >= b && rate > 0.0
    ensures a * rate >= b * rate
  {
  }

  /** Ceil is the least integer not below its argument. */
  lemma WaitShrinks(units: real, rate: real, ms: int)
    requires rate > 0.0
    ensures WaitFor(units - Drained(ms, rate), rate) == WaitFor(units, rate) - ms
  {
    assert Drained(ms, rate) / rate == ms as real / 1_000.0;
    assert (units - Drained(ms, rate)) / rate == units / rate - ms as real / 1_000.0;
  }

  /** The governor's own clock-stepping: dripping to `now` and then further is dripping straight there. */
  lemma DripComposes(g: Governor, now: int, later: int)
    requires g.dripRate > 0.0 && g.lastDripAt <= now <= later && g.level >= 0.0
    ensures Drip(Drip(g, now), later).level == Drip(g, later).level
    ensures Drip(Drip(g, now), later) == Drip(g, later)
  {
    if g.lastDripAt < now < later {
      DrainsInSteps(now - g.lastDripAt, later - now, g.dripRate);
      DrainsDown(later - now, g.dripRate);
    }
  }

  predicate Settled(g: Governor, now: int) {
    g.dripRate > 0.0 && g.level >= 0.0 && g.lastDripAt <= now && g.windowStart <= now
  }

  /** Nobody else spends meanwhile: waiting the full, unclamped time opens both limiters at once. */
  lemma OneRoundSuffices(g: Governor, now: int, cost: nat)
    requires Settled(g, now) && cost as real <= Usable(g)
    requires FullWait(g, now, cost) <= MAX_WAIT_MS
    ensures Delay(Drip(g, now), now + Delay(g, now, cost), cost) == 0
  {
    var wait := Delay(g, now, cost);
    var here := Drip(g, now);
    DelayIsNotNegative(g, now, cost);
    var deficit := here.level + cost as real - Usable(g);
    if deficit > 0.0 {
      WaitDrains(deficit, g.dripRate, wait);
    }
    DrainsDown(wait, g.dripRate);
    if wait > 0 {
      assert Drip(here, now + wait).level == MaxReal(0.0, here.level - Drained(wait, g.dripRate));
    }
  }

  lemma DelayIsNotNegative(g: Governor, now: int, cost: nat)
    requires Settled(g, now)
    ensures FullWait(g, now, cost) >= 0
  {
  }

  /** A clamped round takes a whole minute off whatever was left. */
  lemma ClampedRoundShrinks(g: Governor, now: int, cost: nat)
    requires Settled(g, now) && cost as real <= Usable(g) && FullWait(g, now, cost) > MAX_WAIT_MS
    ensures FullWait(Drip(g, now), now + MAX_WAIT_MS, cost) <= FullWait(g, now, cost) - MAX_WAIT_MS
  {
    var here := Drip(g, now);
    var there := Drip(here, now + MAX_WAIT_MS);
    var deficit := here.level + cost as real - Usable(g);
    assert BurstWait(g, now) <= 1_000;
    assert BurstWait(here, now + MAX_WAIT_MS) == 0;
    WaitShrinks(deficit, g.dripRate, MAX_WAIT_MS);
    assert there.level == MaxReal(0.0, here.level - Drained(MAX_WAIT_MS, g.dripRate));
  }

  /** The clock reading after `rounds` rounds of asking for the delay and sleeping it. */
  function AfterRounds(g: Governor, now: int, cost: nat, rounds: nat): (Governor, int)
    requires g.dripRate > 0.0
    decreases rounds
  {
    if rounds == 0 then (g, now)
    else AfterRounds(Drip(g, now), now + Delay(g, now, cost), cost, rounds - 1)
  }

  /**
   * With room for the cost, repeated waiting reaches delay zero even under the one-minute clamp: in one round
   * when the full wait fits the clamp, and otherwise in one more round per minute of it.
   */
  lemma {:induction false} WaitingReachesZero(g: Governor, now: int, cost: nat, rounds: nat)
    requires Settled(g, now) && cost as real <= Usable(g)
    requires FullWait(g, now, cost) <= rounds * MAX_WAIT_MS && rounds >= 1
    ensures var (end, at) := AfterRounds(g, now, cost, rounds);
            end.dripRate > 0.0 && Delay(end, at, cost) == 0
    decreases rounds
  {
    DelayIsNotNegative(g, now, cost);
    var next, at := Drip(g, now), now + Delay(g, now, cost);
    assert Settled(next, at);
    if FullWait(g, now, cost) <= MAX_WAIT_MS {
      OneRoundSuffices(g, now, cost);
      StaysAtZero(next, at, cost, rounds - 1);
    } else {
      ClampedRoundShrinks(g, now, cost);
      WaitingReachesZero(next, at, cost, rounds - 1);
    }
  }

  lemma {:induction false} StaysAtZero(g: Governor, now: int, cost: nat, rounds: nat)
    requires Settled(g, now) && Delay(g, now, cost) == 0
    ensures var (end, at) := AfterRounds(g, now, cost, rounds);
            end.dripRate > 0.0 && Delay(end, at, cost) == 0
    decreases rounds
  {
    if rounds > 0 {
      assert Drip(Drip(g, now), now) == Drip(g, now);
      StaysAtZero(Drip(g, now), now, cost, rounds - 1);
    }
  }

  /** Waiting can succeed at all exactly when the cost fits the usable capacity. */
  lemma ReachableExactlyWhenItFits(g: Governor, now: int, cost: nat)
    requires Settled(g, now)
    ensures (exists later :: now <= later && Delay(g, later, cost) == 0) <==> cost as real <= Usable(g)
  {
    DelayIsNotNegative(g, now, cost);
    if cost as real <= Usable(g) {
      var wait := FullWait(g, now, cost);
      var later := now + wait;
      var deficit := Drip(g, now).level + cost as real - Usable(g);
      if deficit > 0.0 {
        WaitDrains(deficit, g.dripRate, wait);
      }
      DripComposes(g, now, later);
      DrainsDown(wait, g.dripRate);
      assert Delay(g, later, cost) == 0;
    } else {
      forall later | now <= later ensures Delay(g, later, cost) != 0 {
        var excess := Drip(g, later).level + cost as real - Usable(g);
        assert excess / g.dripRate > 0.0;
      }
    }
  }

  /** An unclamped wait after a full-bucket rejection drains enough for the next single-unit request. */
  lemma BucketThrottleWaitSuffices(g: Governor, now: int)
    requires Settled(g, now) && Classify(g, false).kind == BucketFull && Classify(g, false).waitMs < MAX_WAIT_MS
    ensures BucketWait(Drip(g, now + Classify(g, false).waitMs), 1) == 0
  {
    var wait := Classify(g, false).waitMs;
    WaitDrains(g.level - Usable(g) + 1.0, g.dripRate, wait);
    DrainsInSteps(now - g.lastDripAt, wait, g.dripRate);
    DrainsDown(now - g.lastDripAt, g.dripRate);
    assert (g.level - Usable(g) + 1.0) / g.dripRate > 0.0;
  }

  /** A burst rejection clears in a second; a full bucket is told by its level, and nothing waits over a minute. */
  lemma VerdictsTell(g: Governor, burst: bool)
    ensures var verdict := Classify(g, burst);
            && (verdict.kind == Burst <==> burst) && (burst ==> verdict.waitMs == 1_000)
            && (verdict.kind == BucketFull <==> !burst && g.level >= Usable(g))
            && verdict.waitMs <= 60_000 && (!burst && g.dripRate == 0.0 ==> verdict.waitMs == 60_000)
  {
  }

  /** Otherwise the wait is the shortest in which the excess and one more unit drain, or one unit if it is unknown. */
  lemma VerdictWaitsAreShortest(g: Governor)
    requires g.dripRate > 0.0
    ensures var verdict := Classify(g, false);
            var units := if g.level >= Usable(g) then g.level + 1.0 - Usable(g) else 1.0;
            && verdict.waitMs > 0 && Drained(verdict.waitMs - 1, g.dripRate) < units
            && (verdict.waitMs < 60_000 ==> Drained(verdict.waitMs, g.dripRate) >= units)
  {
    var units := if g.level >= Usable(g) then g.level + 1.0 - Usable(g) else 1.0;
    var wait := WaitFor(units, g.dripRate);
    WaitIsShortest(units, g.dripRate, wait);
    DrainsApartInTime(Classify(g, false).waitMs - 1, wait - 1, g.dripRate);
  }

  lemma WaitIsShortest(units: real, rate: real, wait: int)
    requires units > 0.0 && rate > 0.0 && wait == WaitFor(units, rate)
    ensures wait > 0 && Drained(wait - 1, rate) < units <= Drained(wait, rate)
  {
    WaitDrains(units, rate, wait);
    var seconds := units / rate;
    assert 0.0 < seconds && seconds * rate == units;
    DrainsLess(wait - 1, seconds, rate);
  }

  lemma DrainsLess(ms: int, seconds: real, rate: real)
    requires ms as real < seconds * 1_000.0 && rate > 0.0
    ensures Drained(ms, rate) < seconds * rate
  {
    StrictScale(ms as real / 1_000.0, seconds, rate);
  }

  lemma StrictScale(a: real, b: real, rate: real)
    requires a < b && rate > 0.0
    ensures a * rate < b * rate
  {
  }

  lemma DrainsApartInTime(early: int, late: int, rate: real)
    requires early <= late && rate > 0.0
    ensures Drained(early, rate) <= Drained(late, rate)
  {
    Scale(late as real / 1_000.0, early as real / 1_000.0, rate);
  }
}
