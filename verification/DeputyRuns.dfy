/**
 * Whole runs of the Deputy sync against a vendor whose records are edited while they are read.
 * A world is the job, the vendor's collection, one clock, the stored cursor, the request under way, and every
 * row version the connector has returned so far. A run is any sequence of ticks, edits, removals, requests,
 * answers, receipts, lost attempts and abandoned requests, so that records change before, between and after
 * the moments a query is made, answered and received.
 */
module DeputyRuns {
  import opened Wrappers
  import opened Numerals
  import opened DeputySync

  type Collection = map<nat, Row>

  predicate Satisfies(term: Term, row: Row) {
    match term.data
    case At(t) =>
      row.updatedAt.Some? && Compares(term.op, row.updatedAt.value, t)
    case Day(d) => Compares(term.op, row.day, d)
    case Seconds(s) => Compares(term.op, row.startSeconds, s)
    case IdOf(id) =>
      IdNumber(row.id).Some? && IdNumber(id).Some? && Compares(term.op, IdNumber(row.id).value, IdNumber(id).value)
  }

  predicate Compares(op: Op, left: int, right: int) {
    match op
    case Ge => left >= right
    case Lt => left < right
    case Gt => left > right
  }

  predicate Matches(terms: seq<Term>, row: Row) {
    forall term | term in terms :: Satisfies(term, row)
  }

  ghost predicate WellKeyed(db: Collection) {
    forall id | id in db :: IdNumber(db[id].id) == Some(id)
  }

  predicate Identified(rows: seq<Row>) {
    forall i | 0 <= i < |rows| :: IdNumber(rows[i].id).Some?
  }

  predicate Ascending(rows: seq<Row>)
    requires Identified(rows)
  {
    forall i, j | 0 <= i < j < |rows| :: IdNumber(rows[i].id).value < IdNumber(rows[j].id).value
  }

  /** A page of the matching rows in ascending Id order, cut off after PAGE_SIZE of them. */
  ghost predicate Answers(db: Collection, terms: seq<Term>, rows: seq<Row>) {
    && |rows| <= PAGE_SIZE
    && Identified(rows)
    && Ascending(rows)
    && (forall row | row in rows ::
          var id := IdNumber(row.id).value; id in db && db[id] == row && Matches(terms, row))
    && (forall id | id in db && Matches(terms, db[id]) ::
          (|rows| == PAGE_SIZE ==> id <= IdNumber(rows[PAGE_SIZE - 1].id).value) ==> db[id] in rows)
  }

  // ---------------------------------------------------------------- the world and its events

  /** A request reads the clock when it is made; the vendor answers later, and the answer arrives later still. */
  datatype Flight = Idle | Asked(at: Instant) | Answered(at: Instant, rows: seq<Row>)

  datatype World = World(job: Job, now: Instant, db: Collection, cursor: Cursor, flight: Flight, delivered: set<Row>)

  datatype Event =
    | Tick(to: Instant)
    | Edit(id: nat, row: Row)
    | Remove(id: nat)
    | Ask
    | Answer(rows: seq<Row>)
    | Receive
    | Lose                    // an attempt fails before or after it is answered; the same request is repeated
    | GiveUp

  function Fetched(w: World): Result<Page, SyncError>
    requires w.flight.Answered?
  {
    SyncOutcome(w.job, Some(w.cursor), w.flight.at, _ => Rows(w.flight.rows))
  }

  /** One clock: an edit is stamped with the current time. An answer lists the collection as it is at that moment. */
  ghost predicate Enabled(w: World, e: Event) {
    match e
    case Tick(to) => w.now <= to
    case Edit(id, row) => row.updatedAt == Some(w.now) && IdNumber(row.id) == Some(id)
    case Remove(id) => true
    case Ask => w.flight.Idle?
    case Answer(rows) => w.flight.Asked? && Answers(w.db, QueryTerms(w.job, Some(w.cursor), w.flight.at), rows)
    case Receive => w.flight.Answered?
    case Lose => !w.flight.Idle?
    case GiveUp => true
  }

  ghost function Apply(w: World, e: Event): World
    requires Enabled(w, e)
  {
    match e
    case Tick(to) => w.(now := to)
    case Edit(id, row) => w.(db := w.db[id := row])
    case Remove(id) => w.(db := w.db - {id})
    case Ask => w.(flight := Asked(w.now))
    case Answer(rows) => w.(flight := Answered(w.flight.at, rows))
    case Receive =>
      var outcome := Fetched(w);
      if outcome.Ok? && outcome.value.nextCursor.Some? then
        w.(cursor := outcome.value.nextCursor.value, flight := Idle,
           delivered := w.delivered + set row | row in w.flight.rows)
      else w.(flight := Idle)
    case Lose => w.(flight := Asked(w.flight.at))
    case GiveUp => w.(flight := Idle)
  }

  ghost predicate Legal(w: World, events: seq<Event>)
    decreases |events|
  {
    events == [] || (Enabled(w, events[0]) && Legal(Apply(w, events[0]), events[1..]))
  }

  ghost function Exec(w: World, events: seq<Event>): World
    requires Legal(w, events)
    decreases |events|
  {
    if events == [] then w else Exec(Apply(w, events[0]), events[1..])
  }

  // ---------------------------------------------------------------- the invariant

  predicate Within(row: Row, from: Instant, to: Instant) {
    row.updatedAt.Some? && from <= row.updatedAt.value < to
  }

  function Later(a: Instant, b: Instant): Instant {
    if a < b then b else a
  }

  /** Every current row version last edited in [from, to), with an Id up to `last` if given, was returned. */
  ghost predicate Covered(w: World, from: Instant, to: Instant, last: Option<nat>) {
    forall id | id in w.db && Within(w.db[id], from, to) && (last.Some? ==> id <= last.value) ::
      w.db[id] in w.delivered
  }

  /** The end of the window a request asks for. */
  function Upper(w: World): Instant
    requires !w.flight.Idle?
  {
    if w.cursor.rangeTo.Some? then w.cursor.rangeTo.value else w.flight.at
  }

  /** The page's greatest identity is its last row's, and fits a continuation. */
  predicate Numbered(rows: seq<Row>) {
    rows != [] ==>
      && MaximumId(PageIds(rows)).Some? && |MaximumId(PageIds(rows)).value| <= MAX_ID_DIGITS
      && IdNumber(rows[|rows| - 1].id) == Some(NatOf(MaximumId(PageIds(rows)).value))
  }

  /** An answer on its way is a page the connector accepts. */
  predicate Sound(w: World) {
    w.flight.Answered? ==>
      |w.flight.rows| <= PAGE_SIZE && Numbered(w.flight.rows) && BlockOf(w.flight.rows, PriorId(Some(w.cursor))) == None
  }

  /** With the answer on its way, returned rows reach to the end of the window, or to the last row of a full page. */
  ghost predicate Reaches(first: Instant, w: World)
    requires w.flight.Answered? && w.cursor.watermark.Some? && Numbered(w.flight.rows)
  {
    forall id | id in w.db && Within(w.db[id], Later(first, w.cursor.watermark.value), Upper(w))
             && (|w.flight.rows| == PAGE_SIZE ==> id <= IdNumber(w.flight.rows[PAGE_SIZE - 1].id).value) ::
      w.db[id] in w.delivered || w.db[id] in w.flight.rows
  }

  ghost predicate Invariant(first: Instant, w: World) {
    && w.job.mode == Incremental && WellKeyed(w.db)
    && w.cursor.watermark.Some?
    && w.cursor.watermark.value <= Later(w.now, first)
    && (w.cursor.rangeTo.Some? ==> w.cursor.rangeTo.value <= Later(w.now, first))
    && Covered(w, first, w.cursor.watermark.value, None)
    && (w.cursor.continuation.Some? ==>
          && w.cursor.rangeTo.Some?
          && IdNumber(w.cursor.continuation.value).Some?
          && Covered(w, Later(first, w.cursor.watermark.value), w.cursor.rangeTo.value,
                     IdNumber(w.cursor.continuation.value)))
    && (!w.flight.Idle? ==> w.flight.at <= w.now)
    && Sound(w) && (w.flight.Answered? ==> Reaches(first, w))
  }

  /**
   * Where a chain of incremental runs starts: a cursor with no open page. A finished initial sync
   * leaves `rangeTo` equal to the watermark; a finished incremental run leaves none.
   */
  ghost predicate Start(first: Instant, w: World) {
    && w.job.mode == Incremental && WellKeyed(w.db)
    && w.cursor.watermark == Some(first)
    && w.cursor.continuation.None? && w.flight.Idle?
    && (w.cursor.rangeTo.None? || w.cursor.rangeTo == Some(first))
  }

  /** On an answered page the reduce finds the last row's Id, and no block is raised. */
  lemma AnswerMaximum(db: Collection, terms: seq<Term>, rows: seq<Row>)
    requires Answers(db, terms, rows) && rows != []
    ensures MaximumId(PageIds(rows)).Some?
    ensures IdNumber(rows[|rows| - 1].id) == Some(NatOf(MaximumId(PageIds(rows)).value))
    ensures |MaximumId(PageIds(rows)).value| <= MAX_ID_DIGITS
  {
    PageIdsCollects(rows);
    MaximumIsGreatest(PageIds(rows));
    var last := |rows| - 1;
    assert CanonicalId(rows[last].id).value in PageIds(rows);
    var maximum := MaximumId(PageIds(rows)).value;
    var i :| 0 <= i < |rows| && CanonicalId(rows[i].id) == Some(maximum);
    CanonicalIdMeaning(rows[i].id);
    assert IdNumber(rows[i].id).value <= IdNumber(rows[last].id).value;
  }

  lemma KeysetAdvances(db: Collection, window: seq<Term>, prior: Option<IdText>, rows: seq<Row>)
    requires prior.Some? ==> |prior.value| <= MAX_ID_DIGITS
    requires Answers(db, window + KeysetTerm(prior), rows)
    ensures BlockOf(rows, prior) == None
  {
    if |rows| == PAGE_SIZE {
      AnswerMaximum(db, window + KeysetTerm(prior), rows);
      if prior.Some? {
        QueryValueRoundTrip(prior.value);
        assert KeysetTerm(prior)[0] in window + KeysetTerm(prior);
        assert rows[|rows| - 1] in rows;
      }
    }
  }

  /** An answer is sound whatever happens to the collection after it. */
  lemma AnswerIsSound(w: World, rows: seq<Row>)
    requires Enabled(w, Answer(rows)) && ContinuationValid(Some(w.cursor))
    ensures Sound(Apply(w, Answer(rows)))
  {
    var prior, terms := PriorId(Some(w.cursor)), QueryTerms(w.job, Some(w.cursor), w.flight.at);
    if w.cursor.continuation.Some? {
      CanonicalIdMeaning(w.cursor.continuation.value);
    }
    KeysetAdvances(w.db, WindowTerms(w.job, Some(w.cursor), w.flight.at), prior, rows);
    if rows != [] {
      AnswerMaximum(w.db, terms, rows);
    }
  }

  lemma AnswerKeepsInvariant(first: Instant, w: World, rows: seq<Row>)
    requires Invariant(first, w) && Enabled(w, Answer(rows))
    ensures Invariant(first, Apply(w, Answer(rows)))
  {
    var t := Apply(w, Answer(rows));
    AnswerIsSound(w, rows);
    forall id | id in t.db && Within(t.db[id], Later(first, t.cursor.watermark.value), Upper(t))
             && (|rows| == PAGE_SIZE ==> id <= IdNumber(rows[PAGE_SIZE - 1].id).value)
      ensures t.db[id] in t.delivered || t.db[id] in rows
    {
      WindowRowIsReturned(first, w, rows, id);
    }
  }

  /** What a received page does to the world: the short page closes the window, the full one continues it. */
  lemma PageReceived(w: World)
    requires w.job.mode == Incremental && w.flight.Answered? && Sound(w) && ContinuationValid(Some(w.cursor))
    ensures var t, rows := Apply(w, Receive), w.flight.rows;
            && t.job == w.job && t.db == w.db && t.now == w.now && t.flight.Idle?
            && t.delivered == w.delivered + (set row | row in rows)
            && (|rows| < PAGE_SIZE ==>
                  t.cursor.watermark == Some(Upper(w)) && t.cursor.rangeTo.None? && t.cursor.continuation.None?)
            && (|rows| == PAGE_SIZE ==>
                  && t.cursor.watermark == w.cursor.watermark && t.cursor.rangeTo == Some(Upper(w))
                  && t.cursor.continuation.Some?
                  && IdNumber(t.cursor.continuation.value) == IdNumber(rows[PAGE_SIZE - 1].id)
                  && ContinuationValid(Some(t.cursor)))
  {
    if |w.flight.rows| == PAGE_SIZE {
      QueryValueRoundTrip(MaximumId(PageIds(w.flight.rows)).value);
    }
  }

  /** An answered page of the query, whenever it arrives, extends what was returned exactly up to its continuation. */
  lemma PageKeepsInvariant(first: Instant, w: World)
    requires Invariant(first, w) && Enabled(w, Receive)
    ensures Invariant(first, Apply(w, Receive))
  {
    PageReceived(w);
    hide Apply, Enabled, BlockOf, Numbered, IdNumber, CanonicalId;
    var t := Apply(w, Receive);
    assert Upper(w) <= Later(w.now, first);
    forall id | id in t.db && Within(t.db[id], Later(first, w.cursor.watermark.value), Upper(w))
             && (|w.flight.rows| == PAGE_SIZE ==> id <= IdNumber(w.flight.rows[PAGE_SIZE - 1].id).value)
      ensures t.db[id] in t.delivered
    {
    }
  }

  /** A row of the open window beyond the continuation matches the query of the stored cursor. */
  lemma WindowRowMatches(first: Instant, w: World, id: nat)
    requires Invariant(first, w) && w.flight.Asked? && id in w.db
    requires Within(w.db[id], w.cursor.watermark.value, Upper(w))
    requires PriorId(Some(w.cursor)).None? || id > NatOf(PriorId(Some(w.cursor)).value)
    ensures Matches(QueryTerms(w.job, Some(w.cursor), w.flight.at), w.db[id])
  {
    hide Covered;
    var prior := PriorId(Some(w.cursor));
    if prior.Some? {
      CanonicalIdMeaning(w.cursor.continuation.value);
      QueryValueRoundTrip(prior.value);
    }
  }

  /** A row of the open window is either behind the continuation, hence already returned, or on this page. */
  lemma WindowRowIsReturned(first: Instant, w: World, rows: seq<Row>, id: nat)
    requires Invariant(first, w) && Enabled(w, Answer(rows)) && id in w.db
    requires Within(w.db[id], Later(first, w.cursor.watermark.value), Upper(w))
    requires |rows| == PAGE_SIZE ==> id <= IdNumber(rows[PAGE_SIZE - 1].id).value
    ensures w.db[id] in w.delivered || w.db[id] in rows
  {
    hide QueryTerms, Answers, Invariant;
    var prior := PriorId(Some(w.cursor));
    if prior.Some? && id <= NatOf(prior.value) {
      BehindContinuation(first, w, id);
    } else {
      WindowRowMatches(first, w, id);
      AnswerHolds(w.db, QueryTerms(w.job, Some(w.cursor), w.flight.at), rows, id);
    }
  }

  lemma AnswerHolds(db: Collection, terms: seq<Term>, rows: seq<Row>, id: nat)
    requires Answers(db, terms, rows) && id in db && Matches(terms, db[id])
    requires |rows| == PAGE_SIZE ==> id <= IdNumber(rows[PAGE_SIZE - 1].id).value
    ensures db[id] in rows
  {
    hide Matches, Ascending;
  }

  lemma BehindContinuation(first: Instant, w: World, id: nat)
    requires Invariant(first, w) && w.flight.Asked? && id in w.db
    requires PriorId(Some(w.cursor)).Some? && id <= NatOf(PriorId(Some(w.cursor)).value)
    requires Within(w.db[id], Later(first, w.cursor.watermark.value), Upper(w))
    ensures w.db[id] in w.delivered
  {
    hide WellKeyed;
    CanonicalIdMeaning(w.cursor.continuation.value);
  }

  lemma StepKeepsInvariant(first: Instant, w: World, e: Event)
    requires Invariant(first, w) && Enabled(w, e)
    ensures Invariant(first, Apply(w, e))
  {
    if e.Answer? {
      AnswerKeepsInvariant(first, w, e.rows);
    } else if e.Receive? {
      PageKeepsInvariant(first, w);
    }
  }

  lemma {:induction false} RunKeepsInvariant(first: Instant, w: World, events: seq<Event>)
    requires Invariant(first, w) && Legal(w, events)
    ensures Invariant(first, Exec(w, events))
    decreases |events|
  {
    if events != [] {
      StepKeepsInvariant(first, w, events[0]);
      RunKeepsInvariant(first, Apply(w, events[0]), events[1..]);
    }
  }

  /**
   * Chained windows miss nothing: after any legal run, every record whose last edit lies at or after
   * the first watermark and before the watermark the last completed run committed has been returned
   * in exactly its current version.
   */
  lemma ChainedRunsDeliverFinalVersions(first: Instant, w: World, events: seq<Event>)
    requires Start(first, w) && Legal(w, events)
    ensures var end := Exec(w, events);
            && end.cursor.watermark.Some?
            && forall id | id in end.db && Within(end.db[id], first, end.cursor.watermark.value) ::
                 end.db[id] in end.delivered
  {
    RunKeepsInvariant(first, w, events);
  }

  // ---------------------------------------------------------------- the frozen upper bound

  /** No page received is a short one. */
  ghost predicate ReceivesFull(w: World, events: seq<Event>)
    requires Legal(w, events)
    decreases |events|
  {
    events != [] ==>
      && (events[0].Receive? ==> |w.flight.rows| == PAGE_SIZE)
      && ReceivesFull(Apply(w, events[0]), events[1..])
  }

  ghost predicate OpenWindow(w: World, from: Instant, upper: Instant) {
    && w.job.mode == Incremental
    && w.cursor.watermark == Some(from)
    && w.cursor.rangeTo == Some(upper)
    && ContinuationValid(Some(w.cursor)) && Sound(w)
  }

  lemma StepKeepsWindow(w: World, e: Event, from: Instant, upper: Instant)
    requires OpenWindow(w, from, upper) && Enabled(w, e) && (e.Receive? ==> |w.flight.rows| == PAGE_SIZE)
    ensures OpenWindow(Apply(w, e), from, upper)
  {
    if e.Answer? {
      AnswerIsSound(w, e.rows);
    } else if e.Receive? {
      PageReceived(w);
    }
  }

  lemma {:induction false} OpenWindowStaysFrozen(w: World, events: seq<Event>, from: Instant, upper: Instant)
    requires OpenWindow(w, from, upper) && Legal(w, events) && ReceivesFull(w, events)
    ensures OpenWindow(Exec(w, events), from, upper)
    decreases |events|
  {
    hide OpenWindow, Enabled, Apply;
    if events != [] {
      StepKeepsWindow(w, events[0], from, upper);
      OpenWindowStaysFrozen(Apply(w, events[0]), events[1..], from, upper);
    }
  }

  lemma ShortPageCommits(w: World)
    requires w.job.mode == Incremental && ContinuationValid(Some(w.cursor))
    requires w.flight.Answered? && |w.flight.rows| < PAGE_SIZE
    ensures var end := Apply(w, Receive).cursor;
            end.watermark == Some(Upper(w)) && end.rangeTo.None? && end.continuation.None?
  {
    hide MaximumId, PageIds;
  }

  lemma FullPageFreezes(w: World)
    requires w.job.mode == Incremental && w.flight.Answered? && |w.flight.rows| == PAGE_SIZE && Sound(w)
    requires w.cursor.watermark.Some? && w.cursor.continuation.None? && w.cursor.rangeTo.None?
    ensures OpenWindow(Apply(w, Receive), w.cursor.watermark.value, w.flight.at)
  {
    PageReceived(w);
  }

  predicate Waits(e: Event) {
    !e.Receive? && !e.GiveUp?
  }

  /** However long the answer takes, the request keeps the clock reading it was made with. */
  lemma {:induction false} WaitingKeepsClock(w: World, waiting: seq<Event>)
    requires Legal(w, waiting) && (forall e | e in waiting :: Waits(e))
    requires !w.flight.Idle? && ContinuationValid(Some(w.cursor)) && Sound(w)
    ensures var end := Exec(w, waiting);
            && !end.flight.Idle? && end.flight.at == w.flight.at
            && end.cursor == w.cursor && end.job == w.job && Sound(end)
    decreases |waiting|
  {
    hide BlockOf, Numbered, Answers, ContinuationValid;
    if waiting != [] {
      var e := waiting[0];
      if e.Answer? {
        AnswerIsSound(w, e.rows);
      }
      assert Waits(e);
      WaitingKeepsClock(Apply(w, e), waiting[1..]);
    }
  }

  /**
   * The bound is read from the clock once, when the first page is asked for, and is what the run commits as its next
   * watermark however long its pages take and however many records are edited in between.
   */
  lemma RunCommitsItsFirstClock(w: World, waiting: seq<Event>, between: seq<Event>)
    requires w.job.mode == Incremental && w.flight.Idle?
    requires w.cursor.watermark.Some? && w.cursor.continuation.None? && w.cursor.rangeTo.None?
    requires Legal(Apply(w, Ask), waiting) && forall e | e in waiting :: Waits(e)
    requires var answered := Exec(Apply(w, Ask), waiting);
             && answered.flight.Answered? && |answered.flight.rows| == PAGE_SIZE
             && var begun := Apply(answered, Receive);
                && Legal(begun, between) && ReceivesFull(begun, between)
                && var closing := Exec(begun, between);
                   closing.flight.Answered? && |closing.flight.rows| < PAGE_SIZE
    ensures var closing := Exec(Apply(Exec(Apply(w, Ask), waiting), Receive), between);
            var end := Apply(closing, Receive).cursor;
            end.watermark == Some(w.now) && end.rangeTo.None? && end.continuation.None?
  {
    hide BlockOf, Numbered, NextCursor;
    WaitingKeepsClock(Apply(w, Ask), waiting);
    var answered := Exec(Apply(w, Ask), waiting);
    FullPageFreezes(answered);
    OpenWindowStaysFrozen(Apply(answered, Receive), between, w.cursor.watermark.value, w.now);
    ShortPageCommits(Exec(Apply(answered, Receive), between));
  }
}
