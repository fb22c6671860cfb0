/**
 * One page of the Deputy Resource sync: the query built from a cursor, and the page and
 * next cursor built from the vendor's answer.
 */
module DeputySync {
  import opened Wrappers
  import opened Numerals

  const PAGE_SIZE := 500
  const MAX_SAFE_INTEGER := 9007199254740991
  const MAX_ID_DIGITS := 40

  /** Milliseconds since the epoch. */
  type Instant = int

  type IdText = text: string | Canonical(text) witness "0"

  datatype Stream = Companies | OperationalUnits | Employees | Rosters | Timesheets | Leave | Contacts

  datatype Mode = Initial | Incremental | Reconciliation

  datatype Phase = LateEdits | OtherPhase

  datatype Range = Range(from: Instant, to: Instant)

  /** The `Id` of a raw row, or the stored continuation: a JSON number, a text, or something else. */
  datatype RawId = NumberId(n: int) | TextId(text: string) | NoId

  datatype Cursor = Cursor(
    watermark: Option<Instant>,
    observedWatermark: Option<Instant>,
    oldestObservedAt: Option<Instant>,
    continuation: Option<RawId>,
    rangeFrom: Option<Instant>,
    rangeTo: Option<Instant>)

  datatype Field = Modified | Date | StartTime | DateStart | Id

  datatype Op = Ge | Lt | Gt

  datatype Operand = At(t: Instant) | Day(d: int) | Seconds(s: int) | IdOf(id: RawId)

  datatype Term = Term(field: Field, data: Operand, op: Op)

  /** A vendor row: `stamps` are the parseable normalized timestamps, `payload` everything else. */
  datatype Row = Row(
    id: RawId,
    updatedAt: Option<Instant>,
    stamps: seq<Option<Instant>>,
    day: int,
    startSeconds: int,
    hasCost: bool,
    payload: string)

  /** Two streams ask for the joined address object; every query asks for 500 rows by ascending Id. */
  datatype Query = Query(joinsAddress: bool, search: seq<Term>)

  datatype Response = Rows(rows: seq<Row>) | NotAnArray | HttpError(status: int)

  datatype Block = IdentityInvalid | NotAdvancing

  /** What the last page of an initial scan claims to have covered. */
  datatype Coverage =
    | SnapshotAt(lowerBound: Instant)
    | VerifiedOldest(lowerBound: Instant)
    | VerifiedEmpty(lowerBound: Instant)
    | WindowExhausted(lowerBound: Instant)

  datatype Page = Page(records: seq<Row>, nextCursor: Option<Cursor>, hasMore: bool, block: Option<Block>,
                       coverage: Option<Coverage>)

  datatype SyncError =
    | ConfigurationInvalid | CursorInvalid | RemoteResponseInvalid | CapabilityUnavailable | Http(status: int)

  /** What a caller asks for: everything but the cursor and the clock. */
  datatype Job = Job(stream: Stream, mode: Mode, range: Option<Range>, phase: Phase)

  function StreamOf(name: string): Option<Stream> {
    if name == "companies" then Some(Companies)
    else if name == "operational_units" then Some(OperationalUnits)
    else if name == "employees" then Some(Employees)
    else if name == "rosters" then Some(Rosters)
    else if name == "timesheets" then Some(Timesheets)
    else if name == "leave" then Some(Leave)
    else if name == "contacts" then Some(Contacts)
    else None
  }

  /** Backfilled in windows of time; the other streams are snapshots. */
  predicate Windowed(stream: Stream) {
    stream.Rosters? || stream.Timesheets? || stream.Leave?
  }

  predicate JoinsAddress(stream: Stream) {
    stream.Companies? || stream.OperationalUnits?
  }

  // ---------------------------------------------------------------- pagination identities

  function CanonicalId(id: RawId): (text: Option<IdText>)
  {
    match id
    case NumberId(n) =>
      if 0 <= n <= MAX_SAFE_INTEGER then PrintedReadsBack(n); Some(TextOf(n)) else None
    case TextId(t) =>
      if Canonical(t) && |t| <= MAX_ID_DIGITS then PrintedReadsBack(NatOf(t)); Some(TextOf(NatOf(t))) else None
    case NoId => None
  }

  function QueryValue(id: IdText): RawId {
    if NatOf(id) <= MAX_SAFE_INTEGER then NumberId(NatOf(id)) else TextId(id)
  }

  function IdNumber(id: RawId): Option<nat> {
    match CanonicalId(id)
    case None => None
    case Some(text) => Some(NatOf(text))
  }

  function PageIds(rows: seq<Row>): seq<IdText> {
    if rows == [] then []
    else
      var front := PageIds(rows[..|rows| - 1]);
      match CanonicalId(rows[|rows| - 1].id)
      case None => front
      case Some(text) => front + [text]
  }

  function MaximumId(ids: seq<IdText>): Option<IdText> {
    if ids == [] then None
    else
      var maximum, value := MaximumId(ids[..|ids| - 1]), ids[|ids| - 1];
      if maximum.None? || NatOf(value) > NatOf(maximum.value) then Some(value) else maximum
  }

  /** An identity sent as a query value, stored, and read back denotes the same identity. */
  lemma QueryValueRoundTrip(id: IdText)
    requires |id| <= MAX_ID_DIGITS
    ensures CanonicalId(QueryValue(id)) == Some(id)
    ensures IdNumber(QueryValue(id)) == Some(NatOf(id))
  {
    CanonicalPrintsBack(id);
  }

  /** Whatever form the vendor uses, the canonical text carries the numeric value, in at most 40 digits. */
  lemma CanonicalIdMeaning(raw: RawId)
    ensures raw.NumberId? && 0 <= raw.n <= MAX_SAFE_INTEGER ==> IdNumber(raw) == Some(raw.n)
    ensures raw.TextId? && Canonical(raw.text) && |raw.text| <= MAX_ID_DIGITS ==>
              CanonicalId(raw) == Some(raw.text) && IdNumber(raw) == Some(NatOf(raw.text))
    ensures CanonicalId(raw).Some? ==> |CanonicalId(raw).value| <= MAX_ID_DIGITS
  {
    match raw {
      case NumberId(n) =>
        if 0 <= n <= MAX_SAFE_INTEGER {
          PrintedReadsBack(n);
          ShortText(n);
        }
      case TextId(t) =>
        if Canonical(t) {
          CanonicalPrintsBack(t);
        }
      case NoId =>
    }
  }

  lemma ShortText(n: nat)
    requires n <= MAX_SAFE_INTEGER
    ensures |TextOf(n)| <= MAX_ID_DIGITS
  {
    assert Pow10(6) == 10 * 10 * 10 * 10 * 10 * 10;
    assert Pow10(11) == 10 * 10 * 10 * 10 * 10 * Pow10(6);
    assert Pow10(16) == 10 * 10 * 10 * 10 * 10 * Pow10(11);
    LengthBound(n, 16);
  }

  lemma {:induction false} LengthBound(n: nat, k: nat)
    requires k > 0 && n < Pow10(k)
    ensures |TextOf(n)| <= k
    decreases k
  {
    if n >= 10 {
      LengthBound(n / 10, k - 1);
    }
  }

  /** The reduce finds the largest identity on the page. */
  lemma {:induction false} MaximumIsGreatest(ids: seq<IdText>)
    ensures MaximumId(ids).None? <==> ids == []
    ensures MaximumId(ids).Some? ==> MaximumId(ids).value in ids
    ensures forall id | id in ids :: NatOf(id) <= NatOf(MaximumId(ids).value)
  {
    if ids != [] {
      MaximumIsGreatest(ids[..|ids| - 1]);
      assert ids == ids[..|ids| - 1] + [ids[|ids| - 1]];
    }
  }

  lemma {:induction false} PageIdsCollects(rows: seq<Row>)
    ensures forall id :: id in PageIds(rows) <==> exists i :: 0 <= i < |rows| && CanonicalId(rows[i].id) == Some(id)
  {
    if rows != [] {
      var front := rows[..|rows| - 1];
      PageIdsCollects(front);
      forall id | id in PageIds(rows)
        ensures exists i :: 0 <= i < |rows| && CanonicalId(rows[i].id) == Some(id)
      {
        if id in PageIds(front) {
          var i :| 0 <= i < |front| && CanonicalId(front[i].id) == Some(id);
          assert CanonicalId(rows[i].id) == Some(id);
        }
      }
      forall id, i | 0 <= i < |rows| && CanonicalId(rows[i].id) == Some(id)
        ensures id in PageIds(rows)
      {
        if i < |front| {
          assert CanonicalId(front[i].id) == Some(id);
        }
      }
    }
  }

  // ---------------------------------------------------------------- timestamps

  function Latest(values: seq<Option<Instant>>, fallback: Option<Instant>): Option<Instant> {
    if values == [] then fallback
    else
      var latest, value := Latest(values[..|values| - 1], fallback), values[|values| - 1];
      if value.None? then latest
      else if latest.None? || value.value > latest.value then value
      else latest
  }

  function Oldest(values: seq<Option<Instant>>, fallback: Option<Instant>): Option<Instant> {
    if values == [] then fallback
    else
      var oldest, value := Oldest(values[..|values| - 1], fallback), values[|values| - 1];
      if value.None? then oldest
      else if oldest.None? || value.value < oldest.value then value
      else oldest
  }

  function UpdateTimes(rows: seq<Row>): seq<Option<Instant>> {
    if rows == [] then [] else UpdateTimes(rows[..|rows| - 1]) + [rows[|rows| - 1].updatedAt]
  }

  function AllTimes(rows: seq<Row>): seq<Option<Instant>> {
    if rows == [] then []
    else AllTimes(rows[..|rows| - 1]) + [rows[|rows| - 1].updatedAt] + rows[|rows| - 1].stamps
  }

  // ---------------------------------------------------------------- the query

  function UpperBound(mode: Mode, state: Option<Cursor>, now: Instant): Option<Instant> {
    if mode != Incremental then None
    else if state.Some? && state.value.rangeTo.Some? then state.value.rangeTo
    else Some(now)
  }

  function Watermark(state: Option<Cursor>): Option<Instant> {
    if state.Some? then state.value.watermark else None
  }

  /** The search terms that stay the same over all pages of one scan. */
  function WindowTerms(job: Job, state: Option<Cursor>, now: Instant): seq<Term> {
    if job.mode == Incremental && Watermark(state).Some? then
      [Term(Modified, At(Watermark(state).value), Ge),
       Term(Modified, At(UpperBound(job.mode, state, now).value), Lt)]
    else if job.mode == Reconciliation && job.phase == LateEdits && job.range.Some? then
      [Term(Modified, At(job.range.value.from), Ge), Term(Modified, At(job.range.value.to), Lt)]
    else if job.mode == Initial && job.range.Some? then
      var range := job.range.value;
      match job.stream
      case Rosters =>
        [Term(Date, Day(range.from / 86_400_000), Ge), Term(Date, Day(range.to / 86_400_000), Lt)]
      case Timesheets =>
        [Term(StartTime, Seconds(range.from / 1_000), Ge), Term(StartTime, Seconds(range.to / 1_000), Lt)]
      case Leave =>
        [Term(DateStart, Day(range.from / 86_400_000), Ge), Term(DateStart, Day(range.to / 86_400_000), Lt)]
      case _ => []
    else []
  }

  function PriorId(state: Option<Cursor>): Option<IdText> {
    if state.Some? && state.value.continuation.Some? then CanonicalId(state.value.continuation.value) else None
  }

  predicate ContinuationValid(state: Option<Cursor>) {
    state.Some? && state.value.continuation.Some? ==> CanonicalId(state.value.continuation.value).Some?
  }

  function KeysetTerm(prior: Option<IdText>): seq<Term> {
    if prior.None? then [] else [Term(Id, IdOf(QueryValue(prior.value)), Gt)]
  }

  function QueryTerms(job: Job, state: Option<Cursor>, now: Instant): seq<Term> {
    WindowTerms(job, state, now) + KeysetTerm(PriorId(state))
  }

  // ---------------------------------------------------------------- the page

  function BlockOf(rows: seq<Row>, prior: Option<IdText>): Option<Block> {
    var maximum := MaximumId(PageIds(rows));
    if |rows| != PAGE_SIZE then None
    else if maximum.None? then Some(IdentityInvalid)
    else if prior.Some? && NatOf(maximum.value) <= NatOf(prior.value) then Some(NotAdvancing)
    else None
  }

  function ObservedBefore(state: Option<Cursor>): Option<Instant> {
    if state.None? then None
    else if state.value.observedWatermark.Some? then state.value.observedWatermark
    else state.value.watermark
  }

  function OldestAfter(state: Option<Cursor>, rows: seq<Row>): Option<Instant> {
    Oldest(AllTimes(rows), if state.Some? then state.value.oldestObservedAt else None)
  }

  function NextCursor(job: Job, state: Option<Cursor>, now: Instant, rows: seq<Row>): Cursor {
    var hasMore := |rows| == PAGE_SIZE;
    var maximum := MaximumId(PageIds(rows));
    var upper := UpperBound(job.mode, state, now);
    var observed := Latest(UpdateTimes(rows), ObservedBefore(state));
    Cursor(
      if hasMore then Watermark(state)
      else if job.mode == Initial then if job.range.Some? then Some(job.range.value.to) else observed
      else upper,
      if hasMore then observed else None,
      OldestAfter(state, rows),
      if hasMore && maximum.Some? then Some(QueryValue(maximum.value)) else None,
      if job.range.Some? then Some(job.range.value.from)
      else if state.Some? then state.value.rangeFrom
      else None,
      if job.mode == Incremental then if hasMore then upper else None
      else if job.range.Some? then Some(job.range.value.to)
      else if state.Some? then state.value.rangeTo
      else None)
  }

  /** An initial scan that reaches back to 1970 claims the oldest time it saw as the oldest there is. */
  function CoverageOf(job: Job, state: Option<Cursor>, rows: seq<Row>): Option<Coverage> {
    if job.mode != Initial || |rows| == PAGE_SIZE || job.range.None? then None
    else if !Windowed(job.stream) then Some(SnapshotAt(job.range.value.to))
    else if job.range.value.from > 0 then Some(WindowExhausted(job.range.value.from))
    else if OldestAfter(state, rows).Some? then Some(VerifiedOldest(OldestAfter(state, rows).value))
    else Some(VerifiedEmpty(job.range.value.to))
  }

  function PageOf(job: Job, state: Option<Cursor>, now: Instant, rows: seq<Row>): Page {
    var block := BlockOf(rows, PriorId(state));
    Page(rows, if block.Some? then None else Some(NextCursor(job, state, now, rows)), |rows| == PAGE_SIZE, block,
         CoverageOf(job, state, rows))
  }

  function SyncOutcome(job: Job, state: Option<Cursor>, now: Instant, fetch: Query -> Response)
    : Result<Page, SyncError>
  {
    if !ContinuationValid(state) then Err(CursorInvalid)
    else
      match fetch(Query(JoinsAddress(job.stream), QueryTerms(job, state, now)))
      case HttpError(status) =>
        Err(if job.stream == Contacts && status == 403 then CapabilityUnavailable else Http(status))
      case NotAnArray => Err(RemoteResponseInvalid)
      case Rows(rows) => Ok(PageOf(job, state, now, rows))
  }

  predicate AnyCost(rows: seq<Row>) {
    exists row | row in rows :: row.hasCost
  }

  /** The connector's observed state, and its one-page sync step. */
  class DeputyConnector {
    var successfulStreams: set<(string, Stream)>
    var observedTimesheetCost: set<string>

    constructor ()
      ensures successfulStreams == {} && observedTimesheetCost == {}
    {
      successfulStreams, observedTimesheetCost := {}, {};
    }

    /** Assembles the search terms one by one, refusing a stored continuation that is not an identity. */
    method BuildSearch(job: Job, state: Option<Cursor>, now: Instant) returns (search: Result<seq<Term>, SyncError>)
      ensures search == if ContinuationValid(state) then Ok(QueryTerms(job, state, now)) else Err(CursorInvalid)
    {
      var terms := BuildWindow(job, state, now);
      if state.Some? && state.value.continuation.Some? {
        var prior := CanonicalId(state.value.continuation.value);
        if prior.None? {
          return Err(CursorInvalid);
        }
        terms := terms + [Term(Id, IdOf(QueryValue(prior.value)), Gt)];
      } else {
        assert terms == terms + KeysetTerm(PriorId(state));
      }
      return Ok(terms);
    }

    method BuildWindow(job: Job, state: Option<Cursor>, now: Instant) returns (search: seq<Term>)
      ensures search == WindowTerms(job, state, now)
    {
      search := [];
      if job.mode == Incremental && state.Some? && state.value.watermark.Some? {
        var upper := if state.value.rangeTo.Some? then state.value.rangeTo.value else now;
        search := search + [Term(Modified, At(state.value.watermark.value), Ge)];
        search := search + [Term(Modified, At(upper), Lt)];
      } else if job.mode == Reconciliation && job.phase == LateEdits && job.range.Some? {
        search := search + [Term(Modified, At(job.range.value.from), Ge)];
        search := search + [Term(Modified, At(job.range.value.to), Lt)];
      } else if job.mode == Initial && job.range.Some? {
        var range := job.range.value;
        if job.stream == Rosters {
          search := search + [Term(Date, Day(range.from / 86_400_000), Ge)];
          search := search + [Term(Date, Day(range.to / 86_400_000), Lt)];
        } else if job.stream == Timesheets {
          search := search + [Term(StartTime, Seconds(range.from / 1_000), Ge)];
          search := search + [Term(StartTime, Seconds(range.to / 1_000), Lt)];
        } else if job.stream == Leave {
          search := search + [Term(DateStart, Day(range.from / 86_400_000), Ge)];
          search := search + [Term(DateStart, Day(range.to / 86_400_000), Lt)];
        }
      }
    }

    method Sync(connectionId: string, stream: string, mode: Mode, range: Option<Range>, phase: Phase,
                state: Option<Cursor>, now: Instant, fetch: Query -> Response)
      returns (outcome: Result<Page, SyncError>)
      modifies this
      ensures StreamOf(stream).None? ==> outcome == Err(ConfigurationInvalid)
      ensures StreamOf(stream).Some? ==>
                outcome == SyncOutcome(Job(StreamOf(stream).value, mode, range, phase), state, now, fetch)
      // A stream counts as live only after a page that did not block.
      ensures successfulStreams == old(successfulStreams) +
                (if outcome.Ok? && outcome.value.block.None? then {(connectionId, StreamOf(stream).value)} else {})
      ensures observedTimesheetCost == old(observedTimesheetCost) +
                (if outcome.Ok? && stream == "timesheets" && AnyCost(outcome.value.records) then {connectionId} else {})
    {
      if StreamOf(stream).None? {
        return Err(ConfigurationInvalid);
      }
      var job := Job(StreamOf(stream).value, mode, range, phase);
      var search := BuildSearch(job, state, now);
      if search.Err? {
        return Err(search.error);
      }
      match fetch(Query(JoinsAddress(job.stream), search.value)) {
        case HttpError(status) =>
          if job.stream == Contacts && status == 403 {
            return Err(CapabilityUnavailable);
          }
          return Err(Http(status));
        case NotAnArray =>
          return Err(RemoteResponseInvalid);
        case Rows(rows) =>
          var page := ReadPage(connectionId, job, state, now, rows);
          outcome := Ok(page);
      }
    }

    /** Turns an answered page into records, flags and the next cursor, or into a block. */
    method ReadPage(connectionId: string, job: Job, state: Option<Cursor>, now: Instant, rows: seq<Row>)
      returns (page: Page)
      modifies this
      ensures page == PageOf(job, state, now, rows)
      ensures successfulStreams ==
                old(successfulStreams) + (if page.block.None? then {(connectionId, job.stream)} else {})
      ensures observedTimesheetCost == old(observedTimesheetCost) +
                (if job.stream == Timesheets && AnyCost(rows) then {connectionId} else {})
    {
      if job.stream == Timesheets && AnyCost(rows) {
        observedTimesheetCost := observedTimesheetCost + {connectionId};
      }
      var block := None;
      if |rows| == PAGE_SIZE {
        var maximum, prior := MaximumId(PageIds(rows)), PriorId(state);
        if maximum.None? {
          block := Some(IdentityInvalid);
        } else if prior.Some? && NatOf(maximum.value) <= NatOf(prior.value) {
          block := Some(NotAdvancing);
        }
      }
      var next := None;
      if block.None? {
        successfulStreams := successfulStreams + {(connectionId, job.stream)};
        next := Some(NextCursor(job, state, now, rows));
      }
      var coverage := None;
      if job.mode == Initial && |rows| != PAGE_SIZE && job.range.Some? {
        var range, oldest := job.range.value, OldestAfter(state, rows);
        if !Windowed(job.stream) {
          coverage := Some(SnapshotAt(range.to));
        } else if range.from > 0 {
          coverage := Some(WindowExhausted(range.from));
        } else if oldest.Some? {
          coverage := Some(VerifiedOldest(oldest.value));
        } else {
          coverage := Some(VerifiedEmpty(range.to));
        }
      }
      page := Page(rows, next, |rows| == PAGE_SIZE, block, coverage);
    }
  }
}
