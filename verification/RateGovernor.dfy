/**
 * The R-Series rate governor: a modelled leaky bucket snapped to the vendor's headers, and a learned cap on
 * requests per one-second window. Levels and rates are reals, the clock is integer milliseconds.
 */
module RateGovernor {
  import opened Wrappers

  const BURST_RECOVERY_WINDOWS := 12
  const MAX_WAIT_MS := 60_000

  /** The parsed headers: a value that is missing or not a finite number is None. */
  datatype Bucket = Bucket(level: Option<real>, capacity: Option<real>)

  datatype Headers = Headers(drip: Option<real>, bucket: Option<Bucket>)

  datatype Kind = Burst | BucketFull | Unknown

  datatype Throttle = Throttle(kind: Kind, waitMs: int)

  datatype Governor = Governor(
    capacity: real,
    dripRate: real,
    level: real,
    lastDripAt: int,
    calibrated: bool,
    cap: int,
    windowStart: int,
    windowCount: int,
    cleanWindows: int,
    minCap: int,
    headroom: real)

  function MaxReal(a: real, b: real): real { if a < b then b else a }

  function MaxInt(a: int, b: int): int { if a < b then b else a }

  function MinInt(a: int, b: int): int { if b < a then b else a }

  function Ceil(x: real): int { -((-x).Floor) }

  function Usable(g: Governor): real { MaxReal(1.0, g.capacity - g.headroom) }

  /** What drains in `ms` milliseconds at `rate` units per second. */
  function Drained(ms: int, rate: real): real { ms as real / 1_000.0 * rate }

  function Drip(g: Governor, now: int): Governor {
    if now - g.lastDripAt <= 0 then g
    else g.(level := MaxReal(0.0, g.level - Drained(now - g.lastDripAt, g.dripRate)), lastDripAt := now)
  }

  /** The unclamped wait for so many units to drain. At a rate of zero nothing ever drains. */
  function WaitFor(units: real, rate: real): int
    requires rate != 0.0
  {
    Ceil(units / rate * 1_000.0)
  }

  predicate Fits(g: Governor, cost: int) { g.level + cost as real <= Usable(g) }

  function BucketWait(g: Governor, cost: int): int
    requires g.dripRate != 0.0
  {
    if Fits(g, cost) then 0 else WaitFor(g.level + cost as real - Usable(g), g.dripRate)
  }

  function BurstWait(g: Governor, now: int): int {
    var elapsed := now - g.windowStart;
    if elapsed < 1_000 && g.windowCount >= g.cap then 1_000 - elapsed else 0
  }

  function FullWait(g: Governor, now: int, cost: int): int
    requires g.dripRate != 0.0
  {
    MaxInt(BucketWait(Drip(g, now), cost), BurstWait(g, now))
  }

  /** The clamped wait; for what never drains the clamp alone remains. */
  function Delay(g: Governor, now: int, cost: int): int {
    if g.dripRate != 0.0 then MinInt(MAX_WAIT_MS, FullWait(g, now, cost))
    else if Fits(Drip(g, now), cost) then MinInt(MAX_WAIT_MS, BurstWait(g, now))
    else MAX_WAIT_MS
  }

  function OpenWindow(g: Governor, now: int): Governor {
    var earned := g.windowCount > 0 && g.cleanWindows + 1 >= BURST_RECOVERY_WINDOWS;
    g.(cleanWindows := if g.windowCount <= 0 then g.cleanWindows
                       else if earned then 0 else g.cleanWindows + 1,
       cap := if earned then g.cap + 1 else g.cap,
       windowStart := now,
       windowCount := 0)
  }

  function Commit(g: Governor, now: int, cost: int): Governor {
    var spent := Drip(g, now).(level := Drip(g, now).level + cost as real);
    var windowed := if now - g.windowStart >= 1_000 then OpenWindow(spent, now) else spent;
    windowed.(windowCount := windowed.windowCount + 1)
  }

  function Observe(g: Governor, now: int, headers: Headers): Governor {
    var rated := if headers.drip.Some? && headers.drip.value > 0.0 then g.(dripRate := headers.drip.value) else g;
    match headers.bucket
    case Some(Bucket(Some(level), Some(capacity))) =>
      if capacity <= 0.0 then rated
      else rated.(capacity := capacity, level := MaxReal(0.0, level), lastDripAt := now, calibrated := true)
    case _ => rated
  }

  function HalveCap(g: Governor): Governor {
    g.(cap := MaxInt(g.minCap, g.cap / 2), cleanWindows := 0)
  }

  function AfterThrottle(g: Governor, now: int, burst: bool, headers: Option<Headers>): Governor {
    var seen := if headers.Some? then Observe(g, now, headers.value) else g;
    if burst then HalveCap(seen) else seen
  }

  function ClampedWait(units: real, rate: real): int {
    if rate == 0.0 then MAX_WAIT_MS else MinInt(MAX_WAIT_MS, WaitFor(units, rate))
  }

  function Classify(g: Governor, burst: bool): Throttle {
    if burst then Throttle(Burst, 1_000)
    else if g.level >= Usable(g) then Throttle(BucketFull, ClampedWait(g.level - Usable(g) + 1.0, g.dripRate))
    else Throttle(Unknown, ClampedWait(1.0, g.dripRate))
  }

  /** A full window waits exactly for its second to end, and a whole wait is never over a minute. */
  lemma BurstWaitEndsWindow(g: Governor, now: int, cost: int)
    ensures var wait := BurstWait(g, now);
            && (wait > 0 ==> now + wait == g.windowStart + 1_000 && BurstWait(g, now + wait) == 0)
            && (wait > 0 <==> now < g.windowStart + 1_000 && g.windowCount >= g.cap)
    ensures Delay(g, now, cost) <= 60_000
  {
  }

  /** A positive drip rate and a bucket that reads are taken over; what makes no sense changes nothing. */
  lemma HeadersTell(g: Governor, now: int, headers: Headers)
    ensures var after := Observe(g, now, headers);
            && (g.dripRate > 0.0 ==> after.dripRate > 0.0) && (g.capacity > 0.0 ==> after.capacity > 0.0)
            && (g.level >= 0.0 ==> after.level >= 0.0) && (g.calibrated ==> after.calibrated)
            && (forall rate :: headers.drip == Some(rate) && rate > 0.0 ==> after.dripRate == rate)
            && (match headers.bucket
                case Some(Bucket(Some(level), Some(capacity))) =>
                  capacity > 0.0 ==>
                    && after.calibrated && after.capacity == capacity && after.lastDripAt == now
                    && (level >= 0.0 ==> after.level == level)
                case _ => true)
            && (headers.bucket.None? ==> after == g.(dripRate := after.dripRate))
            && after == g.(capacity := after.capacity, dripRate := after.dripRate, level := after.level,
                           lastDripAt := after.lastDripAt, calibrated := after.calibrated)
  {
  }

  /** When nothing can drain, waiting lets a request through exactly when it fits already; else it gets the clamp. */
  lemma NothingDrains(g: Governor, now: int, cost: int)
    requires g.dripRate == 0.0 && g.level >= 0.0
    ensures (exists later :: now <= later && Delay(g, later, cost) == 0) <==> Fits(g, cost)
    ensures !Fits(g, cost) ==> forall later :: Delay(g, later, cost) == 60_000
  {
    assert forall later :: Drip(g, later).level == g.level;
    if Fits(g, cost) {
      var later := MaxInt(now, g.windowStart + 1_000);
      assert Delay(g, later, cost) == 0;
    }
  }

  /** A negative drip rate turns the bucket off: its wait comes out negative and the burst wait alone counts. */
  lemma NegativeDripNeverWaits(g: Governor, now: int, cost: int)
    requires g.dripRate < 0.0
    ensures Delay(g, now, cost) == MinInt(MAX_WAIT_MS, BurstWait(g, now))
  {
    var units := Drip(g, now).level + cost as real - Usable(g);
    if units > 0.0 {
      assert units / g.dripRate < 0.0;
    }
  }

  // ---------------------------------------------------------------- how levels drain

  lemma DrainsInSteps(a: int, b: int, rate: real)
    ensures Drained(a + b, rate) == Drained(a, rate) + Drained(b, rate)
  {
    assert (a + b) as real / 1_000.0 == a as real / 1_000.0 + b as real / 1_000.0;
  }

  lemma DrainsDown(ms: int, rate: real)
    requires ms >= 0 && rate >= 0.0
    ensures Drained(ms, rate) >= 0.0
  {
    DrainsApart(ms, 0.0, rate);
  }

  lemma DrainsApart(ms: int, slow: real, fast: real)
    requires ms >= 0 && slow <= fast
    ensures Drained(ms, slow) <= Drained(ms, fast)
  {
    var units := ms as real / 1_000.0;
    assert units * slow <= units * fast;
  }

  /** The governor object: every method states its whole effect as one of the functions above. */
  class LightspeedRateGovernor {
    var capacity: real
    var dripRate: real
    var level: real
    var lastDripAt: int
    var calibrated: bool
    var burstWindowCap: int
    const minBurstWindowCap: int
    var burstWindowStart: int
    var burstWindowCount: int
    var cleanWindows: int
    const headroomUnits: real

    function State(): Governor
      reads this
    {
      Governor(capacity, dripRate, level, lastDripAt, calibrated, burstWindowCap, burstWindowStart,
               burstWindowCount, cleanWindows, minBurstWindowCap, headroomUnits)
    }

    constructor (capacity: real := 60.0, dripRate: real := 1.0, headroom: real := 2.0, cap: int := 6, minCap: int := 1,
                 now: int)
      ensures State() == Governor(capacity, dripRate, 0.0, now, false, cap, 0, 0, 0, minCap, headroom)
    {
      this.capacity, this.dripRate, headroomUnits := capacity, dripRate, headroom;
      burstWindowCap, minBurstWindowCap := cap, minCap;
      level, lastDripAt, calibrated := 0.0, now, false;
      burstWindowStart, burstWindowCount, cleanWindows := 0, 0, 0;
    }

    method DripTo(now: int)
      modifies this
      ensures State() == Drip(old(State()), now)
    {
      var elapsedMs := now - lastDripAt;
      if elapsedMs <= 0 {
        return;
      }
      level := MaxReal(0.0, level - elapsedMs as real / 1_000.0 * dripRate);
      lastDripAt := now;
    }

    method DelayFor(now: int, cost: int) returns (waitMs: int)
      modifies this
      ensures State() == Drip(old(State()), now)
      ensures waitMs == Delay(old(State()), now, cost)
    {
      DripTo(now);
      var usable := MaxReal(1.0, capacity - headroomUnits);
      var bucketWaitMs := 0;
      if !(level + cost as real <= usable) {
        if dripRate == 0.0 {
          return MAX_WAIT_MS;
        }
        bucketWaitMs := Ceil((level + cost as real - usable) / dripRate * 1_000.0);
      }
      var windowElapsed := now - burstWindowStart;
      var burstWaitMs := 0;
      if windowElapsed < 1_000 && burstWindowCount >= burstWindowCap {
        burstWaitMs := 1_000 - windowElapsed;
      }
      waitMs := MinInt(MAX_WAIT_MS, MaxInt(bucketWaitMs, burstWaitMs));
    }

    method CommitRequest(now: int, cost: int)
      modifies this
      ensures State() == Commit(old(State()), now, cost)
    {
      DripTo(now);
      level := level + cost as real;
      if now - burstWindowStart >= 1_000 {
        if burstWindowCount > 0 {
          cleanWindows := cleanWindows + 1;
          if cleanWindows >= BURST_RECOVERY_WINDOWS {
            burstWindowCap := burstWindowCap + 1;
            cleanWindows := 0;
          }
        }
        burstWindowStart := now;
        burstWindowCount := 0;
      }
      burstWindowCount := burstWindowCount + 1;
    }

    method ObserveHeaders(now: int, headers: Headers)
      modifies this
      ensures State() == Observe(old(State()), now, headers)
    {
      if headers.drip.Some? && headers.drip.value > 0.0 {
        dripRate := headers.drip.value;
      }
      if headers.bucket.None? {
        return;
      }
      var bucket := headers.bucket.value;
      if bucket.level.None? || bucket.capacity.None? || bucket.capacity.value <= 0.0 {
        return;
      }
      capacity := bucket.capacity.value;
      level := MaxReal(0.0, bucket.level.value);
      lastDripAt := now;
      calibrated := true;
    }

    method ClassifyThrottle(now: int, burst: bool, headers: Option<Headers>) returns (verdict: Throttle)
      modifies this
      ensures State() == AfterThrottle(old(State()), now, burst, headers)
      ensures verdict == Classify(State(), burst)
    {
      if headers.Some? {
        ObserveHeaders(now, headers.value);
      }
      if burst {
        burstWindowCap := MaxInt(minBurstWindowCap, burstWindowCap / 2);
        cleanWindows := 0;
        return Throttle(Burst, 1_000);
      }
      var usable := MaxReal(1.0, capacity - headroomUnits);
      if level >= usable {
        var deficit := level - usable + 1.0;
        return Throttle(BucketFull,
                        if dripRate == 0.0 then MAX_WAIT_MS
                        else MinInt(MAX_WAIT_MS, Ceil(deficit / dripRate * 1_000.0)));
      }
      return Throttle(Unknown,
                      if dripRate == 0.0 then MAX_WAIT_MS else MinInt(MAX_WAIT_MS, Ceil(1.0 / dripRate * 1_000.0)));
    }
  }
}
