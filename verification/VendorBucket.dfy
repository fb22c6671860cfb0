/**
 * The governor run beside the vendor's own bucket, one request at a time. The vendor drains at its true rate,
 * which may change, and answers with headers that report its level and rate at the moment of arrival.
 */
module VendorBucket {
  import opened Wrappers
  import opened RateGovernor

  datatype Vendor = Vendor(level: real, rate: real, capacity: real, at: int)

  function VendorLevel(v: Vendor, t: int): real
    requires v.at <= t
  {
    MaxReal(0.0, v.level - Drained(t - v.at, v.rate))
  }

  function ModelLevel(g: Governor, t: int): real
    requires g.lastDripAt <= t
  {
    Drip(g, t).level
  }

  /**
   * One exchange: dispatched at `sent`, charged or refused by the vendor at `arrived`, answered at `answered`.
   * `reported` says whether the answer carries the drip and bucket headers. Afterwards the vendor may retune.
   */
  datatype Request = Request(cost: nat, sent: int, arrived: int, answered: int, charged: bool, reported: bool,
                             newRate: real, newCapacity: real)

  datatype World = World(g: Governor, v: Vendor)

  function Arrive(v: Vendor, r: Request): Vendor
    requires v.at <= r.arrived
  {
    v.(level := VendorLevel(v, r.arrived) + if r.charged then r.cost as real else 0.0, at := r.arrived)
  }

  function ReportOf(v: Vendor): Headers {
    Headers(Some(v.rate), Some(Bucket(Some(v.level), Some(v.capacity))))
  }

  function Step(w: World, r: Request): World
    requires w.v.at <= r.sent <= r.arrived <= r.answered
  {
    var sent := Commit(w.g, r.sent, r.cost);
    var v := Arrive(w.v, r);
    var seen := if r.reported then Observe(sent, r.answered, ReportOf(v)) else sent;
    var settled := v.(level := VendorLevel(v, r.answered), at := r.answered);
    World(seen, settled.(rate := r.newRate, capacity := r.newCapacity))
  }

  predicate Sane(w: World, now: int) {
    && 0.0 < w.g.dripRate <= w.v.rate
    && w.g.lastDripAt <= now
    && w.v.at <= now
    && w.g.level >= 0.0
    && w.v.level >= 0.0
    && w.v.capacity > 0.0
  }

  /** The request goes out when the governor says so, and the vendor never drains slower than the model believes. */
  predicate Allowed(w: World, r: Request) {
    && w.v.at <= r.sent <= r.arrived <= r.answered
    && Sane(w, r.sent)
    && Delay(w.g, r.sent, r.cost) == 0
    && (if r.reported then w.v.rate else w.g.dripRate) <= r.newRate
    && r.newCapacity > 0.0
  }

  /**
   * The model can be trusted across this request: its answer is measured, or the vendor charges nothing, or the
   * model held at least what drains while the request travels.
   */
  predicate Tolerated(w: World, r: Request)
    requires w.g.lastDripAt <= r.sent
  {
    r.reported || !r.charged || r.cost == 0 || Drained(r.arrived - r.sent, w.g.dripRate) <= ModelLevel(w.g, r.sent)
  }

  predicate Ahead(w: World, now: int)
    requires Sane(w, now)
  {
    VendorLevel(w.v, now) <= ModelLevel(w.g, now)
  }

  /** Time alone never lets the vendor overtake the model. */
  lemma AheadStaysAhead(w: World, now: int, later: int)
    requires Sane(w, now) && now <= later && Ahead(w, now)
    ensures Sane(w, later) && Ahead(w, later)
    ensures VendorLevel(w.v, later) <= VendorLevel(w.v, now)
  {
    DrainsInSteps(now - w.v.at, later - now, w.v.rate);
    DrainsInSteps(now - w.g.lastDripAt, later - now, w.g.dripRate);
    DrainsApart(later - now, w.g.dripRate, w.v.rate);
    DrainsDown(later - now, w.g.dripRate);
  }

  lemma ReportCatchesUp(w: World, r: Request)
    requires Allowed(w, r) && r.reported
    ensures Sane(Step(w, r), r.answered) && Ahead(Step(w, r), r.answered)
  {
    DrainsDown(r.arrived - w.v.at, w.v.rate);
    DrainsDown(r.answered - r.arrived, w.v.rate);
  }

  /** When the charge reaches the vendor, the model is still ahead. */
  lemma ArrivalStaysAhead(w: World, r: Request)
    requires Allowed(w, r) && Ahead(w, r.sent) && !r.reported && Tolerated(w, r)
    ensures VendorLevel(Arrive(w.v, r), r.arrived) <= ModelLevel(Commit(w.g, r.sent, r.cost), r.arrived)
  {
    DrainsInSteps(r.sent - w.v.at, r.arrived - r.sent, w.v.rate);
    DrainsApart(r.arrived - r.sent, w.g.dripRate, w.v.rate);
    DrainsDown(r.arrived - r.sent, w.g.dripRate);
    DrainsDown(r.arrived - r.sent, w.v.rate);
    assert Drained(0, w.v.rate) == 0.0;
    assert Commit(w.g, r.sent, r.cost).level == ModelLevel(w.g, r.sent) + r.cost as real;
  }

  lemma UnreportedStaysAhead(w: World, r: Request)
    requires Allowed(w, r) && Ahead(w, r.sent) && !r.reported && Tolerated(w, r)
    ensures Sane(Step(w, r), r.answered) && Ahead(Step(w, r), r.answered)
  {
    var there := World(Commit(w.g, r.sent, r.cost), Arrive(w.v, r));
    ArrivalStaysAhead(w, r);
    DrainsDown(r.arrived - w.v.at, w.v.rate);
    AheadStaysAhead(there, r.arrived, r.answered);
    assert Drained(0, r.newRate) == 0.0;
  }

  lemma ToleratedStepStaysAhead(w: World, r: Request)
    requires Allowed(w, r) && Ahead(w, r.sent) && Tolerated(w, r)
    ensures Sane(Step(w, r), r.answered) && Ahead(Step(w, r), r.answered)
  {
    if r.reported {
      ReportCatchesUp(w, r);
    } else {
      UnreportedStaysAhead(w, r);
    }
  }

  /** A vendor the model is not behind. */
  predicate Trailing(v: Vendor, g: Governor, now: int)
    requires g.lastDripAt <= now
  {
    v.at <= now && v.level >= 0.0 && g.dripRate <= v.rate && VendorLevel(v, now) <= ModelLevel(g, now)
  }

  /**
   * Without headers in the answer, a charge that travels leaves every such vendor at or below the model exactly when
   * the model held at least what drains on the way: otherwise it drains the charge before the vendor has made it.
   */
  lemma LatencyToleratedExactly(g: Governor, r: Request)
    requires g.dripRate > 0.0 && g.level >= 0.0 && g.lastDripAt <= r.sent <= r.arrived && r.charged && r.cost > 0
    ensures (forall v: Vendor | Trailing(v, g, r.sent) ::
               VendorLevel(Arrive(v, r), r.arrived) <= ModelLevel(Commit(g, r.sent, r.cost), r.arrived)) <==>
            Drained(r.arrived - r.sent, g.dripRate) <= ModelLevel(g, r.sent)
  {
    var held, lost := ModelLevel(g, r.sent), Drained(r.arrived - r.sent, g.dripRate);
    assert Commit(g, r.sent, r.cost).level == held + r.cost as real;
    DrainsDown(r.arrived - r.sent, g.dripRate);
    if lost <= held {
      forall v: Vendor | Trailing(v, g, r.sent)
        ensures VendorLevel(Arrive(v, r), r.arrived) <= ModelLevel(Commit(g, r.sent, r.cost), r.arrived)
      {
        DrainsInSteps(r.sent - v.at, r.arrived - r.sent, v.rate);
        DrainsApart(r.arrived - r.sent, g.dripRate, v.rate);
        assert Drained(0, v.rate) == 0.0;
      }
    } else {
      EmptyVendorOvertakes(g, r);
    }
  }

  /** A vendor at rest with an empty bucket shows it. */
  lemma EmptyVendorOvertakes(g: Governor, r: Request)
    requires g.dripRate > 0.0 && g.level >= 0.0 && g.lastDripAt <= r.sent <= r.arrived && r.charged && r.cost > 0
    requires Drained(r.arrived - r.sent, g.dripRate) > ModelLevel(g, r.sent)
    ensures var v := Vendor(0.0, g.dripRate, 1.0, r.sent);
            Trailing(v, g, r.sent) &&
            VendorLevel(Arrive(v, r), r.arrived) > ModelLevel(Commit(g, r.sent, r.cost), r.arrived)
  {
    var v := Vendor(0.0, g.dripRate, 1.0, r.sent);
    DrainsDown(r.arrived - r.sent, g.dripRate);
    assert Drained(0, g.dripRate) == 0.0;
    assert Commit(g, r.sent, r.cost).level == ModelLevel(g, r.sent) + r.cost as real;
  }

  /** A request dispatched at delay zero leaves the vendor's bucket at or under the usable capacity. */
  lemma DispatchFits(w: World, r: Request)
    requires Allowed(w, r) && Ahead(w, r.sent)
    ensures Arrive(w.v, r).level <= Usable(w.g)
  {
    AheadStaysAhead(w, r.sent, r.arrived);
    CeilPositive(ModelLevel(w.g, r.sent) + r.cost as real - Usable(w.g), w.g.dripRate);
  }

  lemma CeilPositive(units: real, rate: real)
    requires rate > 0.0
    ensures units > 0.0 ==> WaitFor(units, rate) > 0
  {
    if units > 0.0 {
      assert units / rate > 0.0;
    }
  }

  ghost predicate Run(w: World, now: int, requests: seq<Request>)
    decreases |requests|
  {
    requests == [] ||
    (now <= requests[0].sent && Allowed(w, requests[0]) &&
     Run(Step(w, requests[0]), requests[0].answered, requests[1..]))
  }

  /** The charge stays within what the governor takes to be usable. */
  ghost predicate EveryArrivalFits(w: World, now: int, requests: seq<Request>)
    requires Run(w, now, requests)
    decreases |requests|
  {
    requests == [] ||
    (Arrive(w.v, requests[0]).level <= Usable(w.g)
     && EveryArrivalFits(Step(w, requests[0]), requests[0].answered, requests[1..]))
  }

  ghost predicate EveryTolerated(w: World, now: int, requests: seq<Request>)
    requires Run(w, now, requests)
    decreases |requests|
  {
    requests == [] ||
    (Tolerated(w, requests[0]) && EveryTolerated(Step(w, requests[0]), requests[0].answered, requests[1..]))
  }

  /**
   * Over any sequence of tolerated requests the model never falls below the vendor, so every arrival leaves the
   * vendor's level at or under the capacity the governor believes in minus its headroom, when that is at least one.
   */
  lemma {:induction false} GovernorNeverOverfills(w: World, now: int, requests: seq<Request>)
    requires Run(w, now, requests) && Sane(w, now) && Ahead(w, now)
    requires EveryTolerated(w, now, requests)
    ensures EveryArrivalFits(w, now, requests)
    decreases |requests|
  {
    if requests != [] {
      var r := requests[0];
      AheadStaysAhead(w, now, r.sent);
      DispatchFits(w, r);
      ToleratedStepStaysAhead(w, r);
      GovernorNeverOverfills(Step(w, r), r.answered, requests[1..]);
    }
  }

  // ---------------------------------------------------------------- against the vendor's own capacity

  /** The governor does not believe in more capacity than there is. */
  predicate Modest(w: World) {
    w.g.capacity <= w.v.capacity
  }

  /** The vendor may retune its capacity, but not below what the governor has last been told. */
  predicate KeepsRoom(w: World, r: Request) {
    (if r.reported then w.v.capacity else w.g.capacity) <= r.newCapacity
  }

  lemma StepStaysModest(w: World, r: Request)
    requires Allowed(w, r) && Modest(w)
    ensures Modest(Step(w, r)) <==> KeepsRoom(w, r)
    ensures Step(w, r).g.headroom == w.g.headroom
  {
  }

  ghost predicate EveryKeepsRoom(w: World, now: int, requests: seq<Request>)
    requires Run(w, now, requests)
    decreases |requests|
  {
    requests == [] ||
    (KeepsRoom(w, requests[0]) && EveryKeepsRoom(Step(w, requests[0]), requests[0].answered, requests[1..]))
  }

  /** Every arrival leaves the headroom free in the vendor's bucket, or fits the single unit always allowed. */
  ghost predicate EveryArrivalLeavesRoom(w: World, now: int, requests: seq<Request>)
    requires Run(w, now, requests)
    decreases |requests|
  {
    requests == [] ||
    (Arrive(w.v, requests[0]).level <= MaxReal(1.0, w.v.capacity - w.g.headroom)
     && EveryArrivalLeavesRoom(Step(w, requests[0]), requests[0].answered, requests[1..]))
  }

  /**
   * While the vendor's capacity never drops below what was last reported, no arrival fills the vendor's own bucket
   * past its own capacity minus the headroom, when that is at least one.
   */
  lemma {:induction false} VendorNeverOverflows(w: World, now: int, requests: seq<Request>)
    requires Run(w, now, requests) && Sane(w, now) && Ahead(w, now) && Modest(w)
    requires EveryTolerated(w, now, requests) && EveryKeepsRoom(w, now, requests)
    ensures EveryArrivalLeavesRoom(w, now, requests)
    decreases |requests|
  {
    if requests != [] {
      var r := requests[0];
      AheadStaysAhead(w, now, r.sent);
      DispatchFits(w, r);
      ToleratedStepStaysAhead(w, r);
      StepStaysModest(w, r);
      VendorNeverOverflows(Step(w, r), r.answered, requests[1..]);
    }
  }
}
