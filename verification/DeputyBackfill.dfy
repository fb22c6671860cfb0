/**
 * A first sync and what follows it: the initial scan of a range over a collection that is edited meanwhile, the
 * cursor it hands over, and the incremental runs of the same stream that start from there.
 */
module DeputyBackfill {
  import opened Wrappers
  import opened Numerals
  import opened DeputySync
  import opened DeputyRuns
  import opened DeputyWalk

  const FRESH := Cursor(None, None, None, None, None, None)

  /** A stream without a cursor is synced exactly as from a cursor that holds nothing. */
  lemma NoCursorIsFresh(job: Job, now: Instant, fetch: Query -> Response)
    ensures SyncOutcome(job, None, now, fetch) == SyncOutcome(job, Some(FRESH), now, fetch)
  {
    assert WindowTerms(job, None, now) == WindowTerms(job, Some(FRESH), now);
    assert PriorId(None) == PriorId(Some(FRESH));
  }

  // ---------------------------------------------------------------- the initial scan

  ghost predicate Begins(w: World) {
    w.job.mode == Initial && w.job.range.Some? && w.cursor == FRESH && w.flight.Idle? && WellKeyed(w.db)
  }

  /** The terms of the scanned window: they stay the same from page to page. */
  function Window(job: Job): seq<Term> {
    WindowTerms(job, None, 0)
  }

  /** Not edited since that moment. */
  predicate Old(row: Row, from: Instant) {
    row.updatedAt.Some? ==> row.updatedAt.value < from
  }

  ghost predicate OldReturned(w: World, window: seq<Term>, from: Instant, last: Option<nat>) {
    forall id | id in w.db && Old(w.db[id], from) && Matches(window, w.db[id]) && (last.Some? ==> id <= last.value) ::
      w.db[id] in w.delivered
  }

  /** With the answer on its way, old rows are returned as far as it goes. */
  ghost predicate OldReaches(w: World, window: seq<Term>, from: Instant)
    requires w.flight.Answered? && Numbered(w.flight.rows)
  {
    forall id | id in w.db && Old(w.db[id], from) && Matches(window, w.db[id])
             && (|w.flight.rows| == PAGE_SIZE ==> id <= IdNumber(w.flight.rows[PAGE_SIZE - 1].id).value) ::
      w.db[id] in w.delivered || w.db[id] in w.flight.rows
  }

  ghost predicate Scanning(w: World, from: Instant) {
    && w.job.mode == Initial && w.job.range.Some? && WellKeyed(w.db)
    && w.cursor.watermark.None? && ContinuationValid(Some(w.cursor)) && Sound(w)
    && from <= w.now
    && (w.cursor.continuation.Some? ==> OldReturned(w, Window(w.job), from, IdNumber(w.cursor.continuation.value)))
    && (w.flight.Answered? ==> OldReaches(w, Window(w.job), from))
  }

  /** A full page goes on from its last row; the short one hands over the end of the range as watermark and bound. */
  lemma InitialPageReceived(w: World)
    requires w.job.mode == Initial && w.job.range.Some?
    requires w.flight.Answered? && Sound(w) && ContinuationValid(Some(w.cursor))
    ensures var t, rows, to := Apply(w, Receive), w.flight.rows, w.job.range.value.to;
            && t.job == w.job && t.db == w.db && t.now == w.now && t.flight.Idle?
            && t.delivered == w.delivered + (set row | row in rows)
            && t.cursor.rangeTo == Some(to)
            && (|rows| < PAGE_SIZE ==> t.cursor.watermark == Some(to) && t.cursor.continuation.None?)
            && (|rows| == PAGE_SIZE ==>
                  && t.cursor.watermark == w.cursor.watermark && t.cursor.continuation.Some?
                  && IdNumber(t.cursor.continuation.value) == IdNumber(rows[PAGE_SIZE - 1].id)
                  && ContinuationValid(Some(t.cursor)))
  {
    if |w.flight.rows| == PAGE_SIZE {
      QueryValueRoundTrip(MaximumId(PageIds(w.flight.rows)).value);
    }
  }

  lemma OldRowIsReturned(w: World, rows: seq<Row>, from: Instant, id: nat)
    requires Scanning(w, from) && Enabled(w, Answer(rows))
    requires id in w.db && Old(w.db[id], from) && Matches(Window(w.job), w.db[id])
    requires |rows| == PAGE_SIZE ==> id <= IdNumber(rows[PAGE_SIZE - 1].id).value
    ensures w.db[id] in w.delivered || w.db[id] in rows
  {
    hide Answers, Satisfies;
    var prior := PriorId(Some(w.cursor));
    if prior.Some? {
      CanonicalIdMeaning(w.cursor.continuation.value);
      QueryValueRoundTrip(prior.value);
    }
    if prior.None? || id > NatOf(prior.value) {
      BeyondContinuation(w.db[id], id, prior);
      assert Matches(QueryTerms(w.job, Some(w.cursor), w.flight.at), w.db[id]);
      AnswerHolds(w.db, QueryTerms(w.job, Some(w.cursor), w.flight.at), rows, id);
    }
  }

  lemma BeyondContinuation(row: Row, id: nat, prior: Option<IdText>)
    requires IdNumber(row.id) == Some(id) && (prior.Some? ==> id > NatOf(prior.value) && |prior.value| <= MAX_ID_DIGITS)
    ensures Matches(KeysetTerm(prior), row)
  {
    if prior.Some? {
      QueryValueRoundTrip(prior.value);
    }
  }

  lemma AnswerKeepsScanning(w: World, rows: seq<Row>, from: Instant)
    requires Scanning(w, from) && Enabled(w, Answer(rows))
    ensures Scanning(Apply(w, Answer(rows)), from)
  {
    AnswerIsSound(w, rows);
    var t := Apply(w, Answer(rows));
    hide Answers, Matches, Sound;
    forall id | id in t.db && Old(t.db[id], from) && Matches(Window(t.job), t.db[id])
             && (|rows| == PAGE_SIZE ==> id <= IdNumber(rows[PAGE_SIZE - 1].id).value)
      ensures t.db[id] in t.delivered || t.db[id] in rows
    {
      OldRowIsReturned(w, rows, from, id);
    }
  }

  lemma PageKeepsScanning(w: World, from: Instant)
    requires Scanning(w, from) && Enabled(w, Receive) && |w.flight.rows| == PAGE_SIZE
    ensures Scanning(Apply(w, Receive), from)
  {
    InitialPageReceived(w);
    hide Apply, Enabled, BlockOf, Numbered, IdNumber, CanonicalId, Matches;
  }

  lemma StepKeepsScanning(w: World, e: Event, from: Instant)
    requires Scanning(w, from) && Enabled(w, e) && (e.Receive? ==> |w.flight.rows| == PAGE_SIZE)
    ensures Scanning(Apply(w, e), from)
  {
    if e.Answer? {
      AnswerKeepsScanning(w, e.rows, from);
    } else if e.Receive? {
      PageKeepsScanning(w, from);
    } else {
      hide Matches, BlockOf, Numbered, CanonicalId;
    }
  }

  lemma {:induction false} ScanGoesOn(w: World, events: seq<Event>, from: Instant)
    requires Scanning(w, from) && Legal(w, events) && ReceivesFull(w, events)
    ensures Scanning(Exec(w, events), from) && Exec(w, events).job == w.job
    decreases |events|
  {
    hide Scanning, Enabled;
    if events != [] {
      StepKeepsScanning(w, events[0], from);
      ScanGoesOn(Apply(w, events[0]), events[1..], from);
    }
  }

  // ---------------------------------------------------------------- the hand-over and the runs after it

  /** All pages full up to the last, which is short and about to be received. */
  ghost predicate Finishing(w: World, scan: seq<Event>) {
    && Begins(w) && Legal(w, scan) && ReceivesFull(w, scan)
    && Exec(w, scan).flight.Answered? && |Exec(w, scan).flight.rows| < PAGE_SIZE
  }

  /** The scan's last page received, and the stream passed to an incremental job. */
  ghost function HandedOver(w: World, scan: seq<Event>, next: Job): World
    requires Finishing(w, scan)
  {
    Apply(Exec(w, scan), Receive).(job := next)
  }

  /** What was last edited before the scan began, and before the end of its range. */
  function Untouched(w: World): Instant
    requires w.job.range.Some?
  {
    if w.now < w.job.range.value.to then w.now else w.job.range.value.to
  }

  /** A finished scan starts the incremental runs at the end of its range, with everything untouched returned. */
  lemma ScanHandsOver(w: World, scan: seq<Event>, next: Job)
    requires Finishing(w, scan) && next.mode == Incremental
    ensures var t := HandedOver(w, scan, next);
            && Start(w.job.range.value.to, t)
            && Untouched(w) <= t.now && OldReturned(t, Window(w.job), Untouched(w), None)
  {
    var from := Untouched(w);
    assert Scanning(w, from);
    ScanGoesOn(w, scan, from);
    var closing := Exec(w, scan);
    InitialPageReceived(closing);
    hide Legal, Exec, Enabled, BlockOf, Numbered, IdNumber, CanonicalId, Matches, Apply;
  }

  lemma {:induction false} OldStaysReturned(w: World, events: seq<Event>, window: seq<Term>, from: Instant)
    requires OldReturned(w, window, from, None) && from <= w.now && Legal(w, events)
    ensures OldReturned(Exec(w, events), window, from, None)
    decreases |events|
  {
    hide Matches, Answers, SyncOutcome;
    if events != [] {
      OldStaysReturned(Apply(w, events[0]), events[1..], window, from);
    }
  }

  /**
   * Nothing is missed between a backfill and the runs after it: every record last edited from the end of the range up
   * to the last committed watermark has been returned in its current version; and so has every record of the scanned
   * window that was last edited before the scan began and before the end of its range.
   */
  lemma BackfillThenRunsDeliver(w: World, scan: seq<Event>, next: Job, runs: seq<Event>)
    requires Finishing(w, scan) && next.mode == Incremental && Legal(HandedOver(w, scan, next), runs)
    ensures var end := Exec(HandedOver(w, scan, next), runs);
            && end.cursor.watermark.Some?
            && (forall id | id in end.db && Within(end.db[id], w.job.range.value.to, end.cursor.watermark.value) ::
                  end.db[id] in end.delivered)
            && (forall id | id in end.db && Old(end.db[id], Untouched(w)) && Matches(Window(w.job), end.db[id]) ::
                  end.db[id] in end.delivered)
  {
    ScanHandsOver(w, scan, next);
    var t := HandedOver(w, scan, next);
    hide Matches, Finishing, HandedOver, Legal, Exec;
    ChainedRunsDeliverFinalVersions(w.job.range.value.to, t, runs);
    OldStaysReturned(t, runs, Window(w.job), Untouched(w));
  }

  /** So a backfill up to its own start leaves out nothing but what is younger than the last committed watermark. */
  lemma PromptBackfillDeliversAll(w: World, scan: seq<Event>, next: Job, runs: seq<Event>)
    requires Finishing(w, scan) && next.mode == Incremental && Legal(HandedOver(w, scan, next), runs)
    requires w.job.range.value.to <= w.now && !Windowed(w.job.stream)
    ensures var end := Exec(HandedOver(w, scan, next), runs);
            && end.cursor.watermark.Some?
            && forall id | id in end.db && Old(end.db[id], end.cursor.watermark.value) :: end.db[id] in end.delivered
  {
    BackfillThenRunsDeliver(w, scan, next, runs);
    assert Window(w.job) == [];
  }

  // ---------------------------------------------------------------- what the windows select

  function Over(stream: Stream, from: Instant, to: Instant): Job {
    Job(stream, Initial, Some(Range(from, to)), OtherPhase)
  }

  /** Adjoining ranges of a windowed stream share no row and leave none out. */
  lemma RangesTile(stream: Stream, a: Instant, b: Instant, c: Instant, row: Row)
    requires Windowed(stream) && a <= b <= c
    ensures Matches(Window(Over(stream, a, c)), row) <==>
              Matches(Window(Over(stream, a, b)), row) || Matches(Window(Over(stream, b, c)), row)
    ensures !(Matches(Window(Over(stream, a, b)), row) && Matches(Window(Over(stream, b, c)), row))
  {
    RangeSelects(stream, a, c, row);
    RangeSelects(stream, a, b, row);
    RangeSelects(stream, b, c, row);
  }

  lemma RangeSelects(stream: Stream, from: Instant, to: Instant, row: Row)
    requires Windowed(stream)
    ensures Matches(Window(Over(stream, from, to)), row) <==>
              if stream.Timesheets? then from / 1_000 <= row.startSeconds < to / 1_000
              else from / 86_400_000 <= row.day < to / 86_400_000
  {
    var terms := Window(Over(stream, from, to));
    assert terms[0] in terms && terms[1] in terms;
  }

  /** A late-edit reconciliation lists exactly the records last edited within its range. */
  lemma LateEditsAreListed(db: Collection, job: Job, clock: seq<Instant>, pages: seq<seq<Row>>, id: nat)
    requires job.mode == Reconciliation && job.phase == LateEdits && job.range.Some?
    requires Scan(db, job, None, clock, pages) && WellKeyed(db) && id in db
    ensures db[id] in Concat(pages) <==> Within(db[id], job.range.value.from, job.range.value.to)
  {
    var terms := WindowTerms(job, None, clock[0]);
    hide Scan, Answers, IdNumber;
    var all := ListingExists(db, terms);
    ScanListsEverythingOnce(db, job, None, clock, pages, all);
    assert terms[0] in terms && terms[1] in terms;
  }
}
