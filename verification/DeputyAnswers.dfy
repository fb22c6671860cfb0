/**
 * The parts of one sync read by themselves: which streams there are, which identities are accepted, what a finished
 * scan claims to have covered, and what each kind of vendor answer becomes.
 */
module DeputyAnswers {
  import opened Wrappers
  import opened Numerals
  import opened DeputySync
  import opened DeputyRuns
  import opened DeputyWalk

  const TWO_TO_THE_53 := 0x20_0000_0000_0000

  // ---------------------------------------------------------------- streams

  function NameOf(stream: Stream): string {
    match stream
    case Companies => "companies"
    case OperationalUnits => "operational_units"
    case Employees => "employees"
    case Rosters => "rosters"
    case Timesheets => "timesheets"
    case Leave => "leave"
    case Contacts => "contacts"
  }

  /** Every stream is asked for by one name, and no other name is a stream. */
  lemma StreamsHaveNames(name: string, stream: Stream)
    ensures StreamOf(name) == Some(stream) <==> name == NameOf(stream)
  {
    assert "timesheets"[0] != "contacts"[0];
  }

  /** Rosters, timesheets and leave go back window by window; companies and units come with their address. */
  lemma StreamsByName(name: string)
    requires StreamOf(name).Some?
    ensures Windowed(StreamOf(name).value) <==> name in {"rosters", "timesheets", "leave"}
    ensures JoinsAddress(StreamOf(name).value) <==> name in {"companies", "operational_units"}
  {
    StreamsHaveNames(name, StreamOf(name).value);
  }

  // ---------------------------------------------------------------- identities

  /** A number below 2^53 or a canonical text of at most forty digits is an identity; nothing else is. */
  lemma AcceptedIdentities(raw: RawId)
    ensures raw.NumberId? ==> (IdNumber(raw).Some? <==> 0 <= raw.n < TWO_TO_THE_53)
    ensures raw.TextId? ==>
              (IdNumber(raw).Some? <==>
                 1 <= |raw.text| <= 40 && AllDigits(raw.text) && (raw.text[0] == '0' ==> |raw.text| == 1))
    ensures raw.NoId? ==> IdNumber(raw).None?
  {
  }

  /** It is asked for as a number exactly below 2^53, where numbers are exact. */
  lemma AskedAsNumber(id: IdText)
    ensures QueryValue(id) == (if NatOf(id) < TWO_TO_THE_53 then NumberId(NatOf(id)) else TextId(id))
  {
  }

  // ---------------------------------------------------------------- claims of coverage

  /** Only the short page of an initial scan with a range claims anything. */
  lemma ClaimsComeLast(job: Job, state: Option<Cursor>, now: Instant, rows: seq<Row>)
    ensures PageOf(job, state, now, rows).coverage.Some? <==> job.mode == Initial && job.range.Some? && |rows| != 500
  {
  }

  /**
   * The claim of a finished scan: a snapshot is complete at the end of the range, and a window that starts after 1970
   * is exhausted down to its start.
   */
  lemma {:induction false} ClaimsExactly(db: Collection, job: Job, state: Option<Cursor>, clock: seq<Instant>,
                                         pages: seq<seq<Row>>)
    requires Scan(db, job, state, clock, pages) && job.mode == Initial && job.range.Some?
    ensures var claim := FinalPage(db, job, state, clock, pages).coverage;
            && claim.Some?
            && (job.stream !in {Rosters, Timesheets, Leave} ==> claim.value == SnapshotAt(job.range.value.to))
            && (job.stream in {Rosters, Timesheets, Leave} ==>
                  (job.range.value.from >= 1 <==> claim.value == WindowExhausted(job.range.value.from)))
    decreases |pages|
  {
    hide Answers, NextCursor, BlockOf, OldestAfter, ContinuationValid;
    if |pages[0]| == PAGE_SIZE {
      ClaimsExactly(db, job, Some(NextCursor(job, state, clock[0], pages[0])), clock[1..], pages[1..]);
    }
  }

  // ---------------------------------------------------------------- vendor answers

  ghost predicate AlwaysAnswers(fetch: Query -> Response, response: Response) {
    forall query :: fetch(query) == response
  }

  /** A stored continuation that is no identity is refused before anything is asked, and only then. */
  lemma RefusedUnasked(job: Job, state: Option<Cursor>, now: Instant, fetch: Query -> Response)
    ensures SyncOutcome(job, state, now, fetch) == Err(CursorInvalid) <==>
              state.Some? && state.value.continuation.Some? && IdNumber(state.value.continuation.value).None?
  {
  }

  /** Without a permission for contacts the vendor answers 403, and nothing else counts as a missing capability. */
  lemma FailuresTell(job: Job, state: Option<Cursor>, now: Instant, fetch: Query -> Response, response: Response)
    requires ContinuationValid(state) && AlwaysAnswers(fetch, response)
    ensures var outcome := SyncOutcome(job, state, now, fetch);
            && (outcome.Ok? <==> response.Rows?)
            && (outcome.Ok? ==> outcome.value.records == response.rows)
            && (outcome == Err(RemoteResponseInvalid) <==> response.NotAnArray?)
            && (outcome == Err(CapabilityUnavailable) <==> job.stream.Contacts? && response == HttpError(403))
            && (forall status :: outcome == Err(Http(status)) <==>
                  response == HttpError(status) && !(job.stream.Contacts? && status == 403))
  {
    assert fetch(Query(JoinsAddress(job.stream), QueryTerms(job, state, now))) == response;
  }

  /** Whether any row of a scan carries a cost can be told page by page. */
  lemma {:induction false} CostsByPage(pages: seq<seq<Row>>)
    ensures AnyCost(Concat(pages)) <==> exists k :: 0 <= k < |pages| && exists row | row in pages[k] :: row.hasCost
  {
    if pages != [] {
      CostsByPage(pages[1..]);
      assert forall k | 0 < k < |pages| :: pages[k] == pages[1..][k - 1];
      assert forall row :: row in Concat(pages) <==> row in pages[0] || row in Concat(pages[1..]);
      if k :| 0 <= k < |pages[1..]| && exists row | row in pages[1..][k] :: row.hasCost {
        assert pages[1..][k] == pages[k + 1];
      }
    }
  }
}
