/**
 * The paged walk itself: over an unchanging collection it lists every matching row once, in Id order,
 * in floor(n / 500) + 1 requests; and against any server at all the committed continuations only grow.
 */
module DeputyWalk {
  import opened Wrappers
  import opened Numerals
  import opened DeputySync
  import opened DeputyRuns

  /** The complete answer without the page limit: all matching rows, each once, in ascending Id order. */
  ghost predicate Listing(db: Collection, terms: seq<Term>, rows: seq<Row>) {
    && Identified(rows)
    && Ascending(rows)
    && (forall row | row in rows ::
          var id := IdNumber(row.id).value; id in db && db[id] == row && Matches(terms, row))
    && (forall id | id in db && Matches(terms, db[id]) :: db[id] in rows)
  }

  function Concat(pages: seq<seq<Row>>): seq<Row> {
    if pages == [] then [] else pages[0] + Concat(pages[1..])
  }

  /**
   * One finished scan: page k answers the query of the k-th cursor at the k-th clock reading, every page
   * but the last is full, and each next cursor is the one the connector returned.
   */
  ghost predicate Scan(db: Collection, job: Job, state: Option<Cursor>, clock: seq<Instant>, pages: seq<seq<Row>>)
    decreases |pages|
  {
    && |clock| == |pages| > 0
    && ContinuationValid(state)
    && Answers(db, QueryTerms(job, state, clock[0]), pages[0])
    && var page := PageOf(job, state, clock[0], pages[0]);
       if page.hasMore then
         page.nextCursor.Some? && |pages| > 1 && Scan(db, job, page.nextCursor, clock[1..], pages[1..])
       else |pages| == 1
  }

  /** Two strictly ascending lists agree on a prefix when one holds everything of the other up to its last key. */
  lemma {:induction false} AscendingPrefix<T(!new)>(key: T -> int, page: seq<T>, all: seq<T>, n: nat)
    requires n <= |page|
    requires forall i, j | 0 <= i < j < |page| :: key(page[i]) < key(page[j])
    requires forall i, j | 0 <= i < j < |all| :: key(all[i]) < key(all[j])
    requires forall x | x in page :: x in all
    requires forall x | x in all && page != [] && key(x) <= key(page[|page| - 1]) :: x in page
    ensures n <= |all| && page[..n] == all[..n]
  {
    if n > 0 {
      var i := n - 1;
      AscendingPrefix(key, page, all, i);
      assert page[i] in all;
      var j :| 0 <= j < |all| && all[j] == page[i];
      SameIndex(key, page, all, i, j);
    }
  }

  lemma SameIndex<T(!new)>(key: T -> int, page: seq<T>, all: seq<T>, i: nat, j: nat)
    requires i < |page| && i <= |all| && j < |all| && page[..i] == all[..i] && all[j] == page[i]
    requires forall i, j | 0 <= i < j < |page| :: key(page[i]) < key(page[j])
    requires forall i, j | 0 <= i < j < |all| :: key(all[i]) < key(all[j])
    requires forall x | x in all && key(x) <= key(page[|page| - 1]) :: x in page
    ensures i == j
  {
    assert forall k | 0 <= k < i :: page[k] == page[..i][k] == all[..i][k] == all[k];
    assert i <= j;
    assert key(all[i]) <= key(all[j]) == key(page[i]) <= key(page[|page| - 1]);
    assert all[i] in all;
    var m :| 0 <= m < |page| && page[m] == all[i];
    assert m >= i;
  }

  /** The rest of the listing behind a continuation. */
  ghost predicate Remaining(window: seq<Term>, prior: Option<IdText>, all: seq<Row>, rest: seq<Row>)
    requires Identified(all)
  {
    && |rest| <= |all|
    && rest == all[|all| - |rest|..]
    && (forall i | 0 <= i < |all| ::
          (prior.None? || IdNumber(all[i].id).value > NatOf(prior.value)) <==> i >= |all| - |rest|)
  }

  /** Asking for Ids beyond the continuation narrows the window's matches to the rest of the listing. */
  lemma MatchesBeyond(window: seq<Term>, prior: Option<IdText>, row: Row)
    requires prior.Some? ==> |prior.value| <= MAX_ID_DIGITS
    requires IdNumber(row.id).Some?
    ensures Matches(window + KeysetTerm(prior), row) <==>
              Matches(window, row) && (prior.None? || IdNumber(row.id).value > NatOf(prior.value))
  {
    var terms := window + KeysetTerm(prior);
    if Matches(terms, row) {
      forall term | term in window ensures Satisfies(term, row) {
        assert term in terms;
      }
    }
    if prior.Some? {
      QueryValueRoundTrip(prior.value);
      assert KeysetTerm(prior)[0] in terms;
    }
  }

  lemma PageRowsAreRest(db: Collection, window: seq<Term>, prior: Option<IdText>, all: seq<Row>, rest: seq<Row>,
                        page: seq<Row>)
    requires prior.Some? ==> |prior.value| <= MAX_ID_DIGITS
    requires Listing(db, window, all) && Remaining(window, prior, all, rest)
    requires Answers(db, window + KeysetTerm(prior), page)
    ensures forall row | row in page :: row in rest
    ensures forall row | row in rest && (|page| == PAGE_SIZE ==>
              IdNumber(row.id).Some? && IdNumber(row.id).value <= IdNumber(page[|page| - 1].id).value) :: row in page
  {
    forall row | row in page ensures row in rest {
      MatchesBeyond(window, prior, row);
      assert db[IdNumber(row.id).value] in all;
      var i :| 0 <= i < |all| && all[i] == row;
      assert row == rest[i - (|all| - |rest|)];
    }
    forall row | row in rest && (|page| == PAGE_SIZE ==>
        IdNumber(row.id).Some? && IdNumber(row.id).value <= IdNumber(page[|page| - 1].id).value)
      ensures row in page
    {
      var k :| 0 <= k < |rest| && rest[k] == row;
      assert all[|all| - |rest| + k] == row;
      assert row in all;
      MatchesBeyond(window, prior, row);
    }
  }

  lemma PageIsNextSlice(db: Collection, window: seq<Term>, prior: Option<IdText>, all: seq<Row>, rest: seq<Row>,
                        page: seq<Row>)
    requires prior.Some? ==> |prior.value| <= MAX_ID_DIGITS
    requires Listing(db, window, all) && Remaining(window, prior, all, rest)
    requires Answers(db, window + KeysetTerm(prior), page)
    ensures page <= rest
    ensures |page| == if |rest| < PAGE_SIZE then |rest| else PAGE_SIZE
  {
    PageRowsAreRest(db, window, prior, all, rest, page);
    var key := (row: Row) => if IdNumber(row.id).Some? then IdNumber(row.id).value else 0;
    AscendingPrefix(key, page, rest, |page|);
    assert page[..|page|] == page;
    if |page| < PAGE_SIZE {
      AscendingPrefix(key, rest, page, |rest|);
    }
  }

  lemma RemainingAfterPage(db: Collection, window: seq<Term>, prior: Option<IdText>, all: seq<Row>, rest: seq<Row>,
                           page: seq<Row>)
    requires Listing(db, window, all) && Remaining(window, prior, all, rest)
    requires page <= rest && |page| == PAGE_SIZE && Answers(db, window + KeysetTerm(prior), page)
    ensures Remaining(window, MaximumId(PageIds(page)), all, rest[PAGE_SIZE..])
  {
    AnswerMaximum(db, window + KeysetTerm(prior), page);
    assert page[PAGE_SIZE - 1] == rest[PAGE_SIZE - 1] == all[|all| - |rest| + PAGE_SIZE - 1];
  }

  /** The window of a scan is the same on every page, whatever the clock reads. */
  lemma WindowIsStable(job: Job, state: Option<Cursor>, now: Instant, later: Instant, page: seq<Row>)
    requires |page| == PAGE_SIZE
    ensures WindowTerms(job, Some(NextCursor(job, state, now, page)), later) == WindowTerms(job, state, now)
  {
  }

  /** After a full page the scan goes on with the same window and the rest of the listing. */
  lemma ScanAdvances(db: Collection, job: Job, state: Option<Cursor>, clock: seq<Instant>,
                     pages: seq<seq<Row>>, all: seq<Row>, rest: seq<Row>)
    requires Scan(db, job, state, clock, pages) && |pages[0]| == PAGE_SIZE
    requires Listing(db, WindowTerms(job, state, clock[0]), all)
    requires Remaining(WindowTerms(job, state, clock[0]), PriorId(state), all, rest)
    requires pages[0] <= rest
    ensures var next := Some(NextCursor(job, state, clock[0], pages[0]));
            && |clock| > 1
            && Scan(db, job, next, clock[1..], pages[1..])
            && WindowTerms(job, next, clock[1]) == WindowTerms(job, state, clock[0])
            && Remaining(WindowTerms(job, state, clock[0]), PriorId(next), all, rest[PAGE_SIZE..])
  {
    var window, prior, page := WindowTerms(job, state, clock[0]), PriorId(state), pages[0];
    RemainingAfterPage(db, window, prior, all, rest, page);
    AnswerMaximum(db, window + KeysetTerm(prior), page);
    QueryValueRoundTrip(MaximumId(PageIds(page)).value);
    WindowIsStable(job, state, clock[0], clock[1], page);
  }

  lemma {:induction false} ScanListsRest(db: Collection, job: Job, state: Option<Cursor>, clock: seq<Instant>,
                                         pages: seq<seq<Row>>, all: seq<Row>, rest: seq<Row>)
    requires Scan(db, job, state, clock, pages)
    requires Listing(db, WindowTerms(job, state, clock[0]), all)
    requires Remaining(WindowTerms(job, state, clock[0]), PriorId(state), all, rest)
    ensures Concat(pages) == rest
    ensures |pages| == |rest| / PAGE_SIZE + 1
    decreases |pages|
  {
    hide NextCursor, BlockOf, WindowTerms, Remaining, Listing, Answers;
    var page := pages[0];
    if PriorId(state).Some? {
      CanonicalIdMeaning(state.value.continuation.value);
    }
    PageIsNextSlice(db, WindowTerms(job, state, clock[0]), PriorId(state), all, rest, page);
    if |page| == PAGE_SIZE {
      ScanAdvances(db, job, state, clock, pages, all, rest);
      ScanListsRest(db, job, Some(NextCursor(job, state, clock[0], page)), clock[1..], pages[1..], all,
                    rest[PAGE_SIZE..]);
      assert rest == page + rest[PAGE_SIZE..];
    } else {
      assert Concat(pages[1..]) == [];
      assert page == rest;
    }
  }

  /**
   * Over an unchanging collection of n matching rows a finished scan, in any mode, returns all of them in
   * Id order, each once, in floor(n / 500) + 1 requests.
   */
  lemma ScanListsEverythingOnce(db: Collection, job: Job, state: Option<Cursor>, clock: seq<Instant>,
                                pages: seq<seq<Row>>, all: seq<Row>)
    requires Scan(db, job, state, clock, pages) && PriorId(state).None?
    requires Listing(db, WindowTerms(job, state, clock[0]), all)
    ensures Concat(pages) == all
    ensures |pages| == |all| / 500 + 1
  {
    ScanListsRest(db, job, state, clock, pages, all, all);
  }

  ghost function MatchingBelow(db: Collection, terms: seq<Term>, n: nat): seq<Row> {
    if n == 0 then []
    else if n - 1 in db && Matches(terms, db[n - 1]) then MatchingBelow(db, terms, n - 1) + [db[n - 1]]
    else MatchingBelow(db, terms, n - 1)
  }

  lemma {:induction false} MatchingBelowLists(db: Collection, terms: seq<Term>, n: nat)
    requires WellKeyed(db)
    ensures var rows := MatchingBelow(db, terms, n);
            && Identified(rows) && Ascending(rows)
            && (forall row | row in rows :: var id := IdNumber(row.id).value;
                  id < n && id in db && db[id] == row && Matches(terms, row))
            && (forall id | id in db && id < n && Matches(terms, db[id]) :: db[id] in rows)
  {
    hide Matches, IdNumber;
    if n > 0 {
      MatchingBelowLists(db, terms, n - 1);
      var front := MatchingBelow(db, terms, n - 1);
      assert forall i | 0 <= i < |front| :: front[i] in front;
    }
  }

  lemma {:induction false} KeysAreBounded(keys: set<nat>) returns (n: nat)
    ensures forall id | id in keys :: id < n
  {
    n := 0;
    if keys != {} {
      var id :| id in keys;
      var rest := KeysAreBounded(keys - {id});
      n := if rest <= id then id + 1 else rest;
      assert forall k | k in keys :: k == id || k in keys - {id};
    }
  }

  lemma ListingExists(db: Collection, terms: seq<Term>) returns (all: seq<Row>)
    requires WellKeyed(db)
    ensures Listing(db, terms, all)
  {
    hide Matches, IdNumber;
    var n := KeysAreBounded(db.Keys);
    MatchingBelowLists(db, terms, n);
    all := MatchingBelow(db, terms, n);
  }

  /** Every query has an answer, so a run is never stuck. */
  lemma AnswerExists(db: Collection, terms: seq<Term>)
    requires WellKeyed(db)
    ensures exists rows :: Answers(db, terms, rows)
  {
    var n := KeysAreBounded(db.Keys);
    MatchingBelowLists(db, terms, n);
    var all := MatchingBelow(db, terms, n);
    var rows := if |all| <= PAGE_SIZE then all else all[..PAGE_SIZE];
    forall id | id in db && Matches(terms, db[id])
                && (|rows| == PAGE_SIZE ==> id <= IdNumber(rows[PAGE_SIZE - 1].id).value)
      ensures db[id] in rows
    {
      assert db[id] in all;
      var k :| 0 <= k < |all| && all[k] == db[id];
      assert k < |rows|;
      assert rows[k] == db[id];
    }
    assert Answers(db, terms, rows);
  }

  /** And no answer of such a vendor is ever taken for a broken page. */
  lemma ScanNeverBlocks(db: Collection, job: Job, state: Option<Cursor>, now: Instant, page: seq<Row>)
    requires ContinuationValid(state) && Answers(db, QueryTerms(job, state, now), page)
    ensures BlockOf(page, PriorId(state)).None?
  {
    if PriorId(state).Some? {
      CanonicalIdMeaning(state.value.continuation.value);
    }
    KeysetAdvances(db, WindowTerms(job, state, now), PriorId(state), page);
  }

  // ---------------------------------------------------------------- any server

  /** Cursors committed one after another, each from an arbitrary full page the connector did not block. */
  ghost predicate Committed(job: Job, cursors: seq<Cursor>, clock: seq<Instant>, pages: seq<seq<Row>>) {
    && |cursors| == |pages| + 1
    && |clock| == |pages|
    && forall k | 0 <= k < |pages| :: CommittedStep(job, cursors[k], clock[k], pages[k], cursors[k + 1])
  }

  predicate CommittedStep(job: Job, cursor: Cursor, now: Instant, rows: seq<Row>, next: Cursor) {
    && ContinuationValid(Some(cursor))
    && |rows| == PAGE_SIZE
    && PageOf(job, Some(cursor), now, rows).nextCursor == Some(next)
  }

  ghost function ContinuationNumber(cursor: Cursor): nat {
    if PriorId(Some(cursor)).Some? then NatOf(PriorId(Some(cursor)).value) else 0
  }

  ghost predicate GrewTo(cursor: Cursor, next: Cursor) {
    && PriorId(Some(next)).Some?
    && |PriorId(Some(next)).value| <= MAX_ID_DIGITS
    && (PriorId(Some(cursor)).Some? ==> ContinuationNumber(cursor) < ContinuationNumber(next))
  }

  lemma ContinuationGrows(job: Job, cursor: Cursor, now: Instant, rows: seq<Row>, next: Cursor)
    requires CommittedStep(job, cursor, now, rows, next)
    ensures GrewTo(cursor, next)
  {
    PageIdsCollects(rows);
    MaximumIsGreatest(PageIds(rows));
    var maximum := MaximumId(PageIds(rows)).value;
    var i :| 0 <= i < |rows| && CanonicalId(rows[i].id) == Some(maximum);
    CanonicalIdMeaning(rows[i].id);
    QueryValueRoundTrip(maximum);
  }

  /**
   * Against any server, even one that ignores the keyset filter or repeats itself, the identities committed
   * as continuations strictly increase.
   */
  lemma ContinuationsStrictlyIncrease(job: Job, cursors: seq<Cursor>, clock: seq<Instant>, pages: seq<seq<Row>>,
                                      i: nat, j: nat)
    requires Committed(job, cursors, clock, pages)
    requires 1 <= i <= j <= |pages|
    ensures PriorId(Some(cursors[j])).Some? && |PriorId(Some(cursors[j])).value| <= MAX_ID_DIGITS
    ensures ContinuationNumber(cursors[i]) + (j - i) <= ContinuationNumber(cursors[j])
  {
    hide PriorId, ContinuationNumber, PageOf;
    forall k | 0 <= k < |pages| ensures GrewTo(cursors[k], cursors[k + 1]) {
      assert CommittedStep(job, cursors[k], clock[k], pages[k], cursors[k + 1]);
      ContinuationGrows(job, cursors[k], clock[k], pages[k], cursors[k + 1]);
    }
    var numbers := seq(|pages|, k requires 0 <= k < |pages| => ContinuationNumber(cursors[k + 1]));
    forall k | 0 <= k < |numbers| - 1 ensures numbers[k] < numbers[k + 1] {
      assert GrewTo(cursors[k], cursors[k + 1]) && GrewTo(cursors[k + 1], cursors[k + 1 + 1]);
    }
    GrowsByIndex(numbers, i - 1, j - 1);
    assert GrewTo(cursors[j - 1], cursors[j - 1 + 1]);
  }

  lemma {:induction false} GrowsByIndex(s: seq<nat>, i: nat, j: nat)
    requires forall k | 0 <= k < |s| - 1 :: s[k] < s[k + 1]
    requires i <= j < |s|
    ensures s[i] + (j - i) <= s[j]
    decreases j
  {
    if i < j {
      GrowsByIndex(s, i, j - 1);
      assert s[j - 1] < s[j - 1 + 1];
    }
  }

  /** Hence no cursor recurs and no scan runs forever: at most 10^40 pages can be committed. */
  lemma ScansAreFinite(job: Job, cursors: seq<Cursor>, clock: seq<Instant>, pages: seq<seq<Row>>, digits: nat)
    requires Committed(job, cursors, clock, pages) && digits == 40
    ensures |pages| <= Pow10(digits)
  {
    if |pages| > 0 {
      ContinuationsStrictlyIncrease(job, cursors, clock, pages, 1, |pages|);
      var last := PriorId(Some(cursors[|pages|])).value;
      BoundedByLength(last);
      PowerMonotone(|last|, digits);
    }
  }

  // ---------------------------------------------------------------- watermarks over a scan

  lemma {:induction false} AllTimesConcat(a: seq<Row>, b: seq<Row>)
    ensures AllTimes(a + b) == AllTimes(a) + AllTimes(b)
    decreases |b|
  {
    if b == [] {
      assert a + b == a;
    } else {
      assert (a + b)[..|a + b| - 1] == a + b[..|b| - 1];
      AllTimesConcat(a, b[..|b| - 1]);
    }
  }

  lemma {:induction false} FoldConcat(a: seq<Option<Instant>>, b: seq<Option<Instant>>, fallback: Option<Instant>)
    ensures Latest(a + b, fallback) == Latest(b, Latest(a, fallback))
    ensures Oldest(a + b, fallback) == Oldest(b, Oldest(a, fallback))
    decreases |b|
  {
    if b == [] {
      assert a + b == a;
    } else {
      assert (a + b)[..|a + b| - 1] == a + b[..|b| - 1];
      FoldConcat(a, b[..|b| - 1], fallback);
    }
  }

  lemma {:induction false} ExtremesOf(values: seq<Option<Instant>>, fallback: Option<Instant>)
    ensures forall v | (v in values || v == fallback) && v.Some? ::
              Latest(values, fallback).Some? && Oldest(values, fallback).Some?
              && Oldest(values, fallback).value <= v.value <= Latest(values, fallback).value
    ensures Latest(values, fallback) in values || Latest(values, fallback) == fallback
    ensures Oldest(values, fallback) in values || Oldest(values, fallback) == fallback
  {
    if values != [] {
      ExtremesOf(values[..|values| - 1], fallback);
      assert values == values[..|values| - 1] + [values[|values| - 1]];
    }
  }

  /** The cursor of a finished scan carries the oldest timestamp over every page of it. */
  lemma {:induction false} ScanReportsOldest(db: Collection, job: Job, state: Option<Cursor>, clock: seq<Instant>,
                                             pages: seq<seq<Row>>, end: Cursor)
    requires Scan(db, job, state, clock, pages)
    requires end == FinalCursor(db, job, state, clock, pages)
    ensures end.oldestObservedAt ==
              Oldest(AllTimes(Concat(pages)), if state.Some? then state.value.oldestObservedAt else None)
    decreases |pages|
  {
    var page := pages[0];
    if |page| == PAGE_SIZE {
      var next := NextCursor(job, state, clock[0], page);
      ScanReportsOldest(db, job, Some(next), clock[1..], pages[1..], end);
      AllTimesConcat(page, Concat(pages[1..]));
      FoldConcat(AllTimes(page), AllTimes(Concat(pages[1..])),
                 if state.Some? then state.value.oldestObservedAt else None);
    } else {
      assert Concat(pages) == page;
    }
  }

  /** What a finished scan commits: the end of its range if it has one, nothing after a reconciliation, no open page. */
  lemma {:induction false} FinalCursorByMode(db: Collection, job: Job, state: Option<Cursor>, clock: seq<Instant>,
                                             pages: seq<seq<Row>>)
    requires Scan(db, job, state, clock, pages)
    ensures var end := FinalCursor(db, job, state, clock, pages);
            && end.continuation.None? && end.observedWatermark.None?
            && (job.range.Some? ==> end.rangeFrom == Some(job.range.value.from))
            && (job.mode == Initial && job.range.Some? ==> end.watermark == end.rangeTo == Some(job.range.value.to))
            && (job.mode == Reconciliation ==> end.watermark.None?)
    decreases |pages|
  {
    hide Answers, MaximumId, Latest, OldestAfter, CanonicalId, BlockOf;
    if |pages[0]| == PAGE_SIZE {
      FinalCursorByMode(db, job, Some(NextCursor(job, state, clock[0], pages[0])), clock[1..], pages[1..]);
    }
  }

  /** An initial scan without a range commits the latest time over all its pages, or what was observed before. */
  lemma {:induction false} UnboundedScanCommitsLatest(db: Collection, job: Job, state: Option<Cursor>,
                                                      clock: seq<Instant>, pages: seq<seq<Row>>)
    requires Scan(db, job, state, clock, pages) && job.mode == Initial && job.range.None?
    ensures FinalCursor(db, job, state, clock, pages).watermark ==
              Latest(UpdateTimes(Concat(pages)), ObservedBefore(state))
    decreases |pages|
  {
    hide Answers, MaximumId, Latest, OldestAfter, CanonicalId, BlockOf, UpdateTimes;
    var page := pages[0];
    if |page| == PAGE_SIZE {
      UnboundedScanCommitsLatest(db, job, Some(NextCursor(job, state, clock[0], page)), clock[1..], pages[1..]);
      UpdateTimesConcat(page, Concat(pages[1..]));
      FoldConcat(UpdateTimes(page), UpdateTimes(Concat(pages[1..])), ObservedBefore(state));
      ExtremesOf(UpdateTimes(page), ObservedBefore(state));
    } else {
      assert Concat(pages) == page;
    }
  }

  lemma {:induction false} UpdateTimesConcat(a: seq<Row>, b: seq<Row>)
    ensures UpdateTimes(a + b) == UpdateTimes(a) + UpdateTimes(b)
    decreases |b|
  {
    if b == [] {
      assert a + b == a;
    } else {
      assert (a + b)[..|a + b| - 1] == a + b[..|b| - 1];
      UpdateTimesConcat(a, b[..|b| - 1]);
    }
  }

  /** The last page of a finished scan. */
  ghost function FinalPage(db: Collection, job: Job, state: Option<Cursor>, clock: seq<Instant>,
                           pages: seq<seq<Row>>): Page
    requires Scan(db, job, state, clock, pages)
    decreases |pages|
  {
    var page := PageOf(job, state, clock[0], pages[0]);
    if page.hasMore then FinalPage(db, job, page.nextCursor, clock[1..], pages[1..]) else page
  }

  lemma {:induction false} CoverageOverPages(db: Collection, job: Job, state: Option<Cursor>, clock: seq<Instant>,
                                             pages: seq<seq<Row>>)
    requires Scan(db, job, state, clock, pages)
    requires job.mode == Initial && job.range.Some? && job.range.value.from <= 0 && Windowed(job.stream)
    ensures var oldest := Oldest(AllTimes(Concat(pages)), if state.Some? then state.value.oldestObservedAt else None);
            FinalPage(db, job, state, clock, pages).coverage ==
            Some(if oldest.Some? then VerifiedOldest(oldest.value) else VerifiedEmpty(job.range.value.to))
    decreases |pages|
  {
    var page := pages[0];
    if |page| == PAGE_SIZE {
      CoverageOverPages(db, job, Some(NextCursor(job, state, clock[0], page)), clock[1..], pages[1..]);
      AllTimesConcat(page, Concat(pages[1..]));
      FoldConcat(AllTimes(page), AllTimes(Concat(pages[1..])),
                 if state.Some? then state.value.oldestObservedAt else None);
    } else {
      assert Concat(pages) == page;
    }
  }

  /** The earliest of the times, if there is any. */
  predicate Earliest(t: Instant, times: seq<Option<Instant>>) {
    Some(t) in times && forall v | v in times && v.Some? :: t <= v.value
  }

  /**
   * What the last page of an initial scan back to 1970 claims is true of everything in the window: the verified
   * oldest time is the earliest of any matching row, and the window is claimed empty exactly when no matching row
   * carries a readable time, whether or not there are rows.
   */
  lemma CoverageIsTrue(db: Collection, job: Job, clock: seq<Instant>, pages: seq<seq<Row>>, all: seq<Row>)
    requires Scan(db, job, None, clock, pages) && Listing(db, WindowTerms(job, None, clock[0]), all)
    requires job.mode == Initial && job.range.Some? && job.range.value.from <= 0 && Windowed(job.stream)
    ensures var claim := FinalPage(db, job, None, clock, pages).coverage;
            && claim.Some?
            && (forall t :: claim.value == VerifiedOldest(t) <==> Earliest(t, AllTimes(all)))
            && (claim.value == VerifiedEmpty(job.range.value.to) <==> forall v | v in AllTimes(all) :: v.None?)
  {
    hide Scan, Listing, WindowTerms, FinalPage, AllTimes, Oldest;
    ScanListsEverythingOnce(db, job, None, clock, pages, all);
    CoverageOverPages(db, job, None, clock, pages);
    ExtremesOf(AllTimes(all), None);
  }

  ghost function FinalCursor(db: Collection, job: Job, state: Option<Cursor>, clock: seq<Instant>,
                             pages: seq<seq<Row>>): Cursor
    requires Scan(db, job, state, clock, pages)
    decreases |pages|
  {
    var next := NextCursor(job, state, clock[0], pages[0]);
    if |pages[0]| == PAGE_SIZE then FinalCursor(db, job, Some(next), clock[1..], pages[1..]) else next
  }
}
