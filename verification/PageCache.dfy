/**
 * The page cache that lets the members of a scan group share one walk. A JavaScript Map is the sequence of its
 * entries in insertion order: setting an absent key appends, setting a present one keeps its place.
 */
module PageCache {
  import opened Wrappers

  const TTL := 3_600_000
  const MAX_ENTRIES := 600

  datatype Entry = Entry(key: string, at: int, body: string)

  type Entries = seq<Entry>

  /** Where a key is, or the number of entries. */
  function At(entries: Entries, key: string): (i: nat)
    ensures i <= |entries| && (i < |entries| ==> entries[i].key == key)
    ensures forall j | 0 <= j < i :: entries[j].key != key
  {
    if entries == [] || entries[0].key == key then 0 else 1 + At(entries[1..], key)
  }

  predicate Fresh(entries: Entries, key: string, now: int) {
    At(entries, key) < |entries| && now - entries[At(entries, key)].at < TTL
  }

  function Without(entries: Entries, i: nat): Entries
    requires i < |entries|
  {
    entries[..i] + entries[i + 1..]
  }

  function Set(entries: Entries, entry: Entry): Entries {
    var i := At(entries, entry.key);
    if i < |entries| then entries[i := entry] else entries + [entry]
  }

  /** Oldest entries go until the rest fit. */
  function Trimmed(entries: Entries): (kept: Entries)
    ensures |kept| <= MAX_ENTRIES
  {
    if |entries| <= MAX_ENTRIES then entries else entries[|entries| - MAX_ENTRIES..]
  }

  /** What the cache becomes when a key is asked for and the vendor, if asked, would answer so. */
  function After(entries: Entries, key: string, now: int, answer: Option<string>): Entries {
    var i := At(entries, key);
    if Fresh(entries, key, now) then Without(entries, i) + [entries[i]]
    else if answer.None? then entries
    else Trimmed(Set(entries, Entry(key, now, answer.value)))
  }

  /** The page handed on, if any. */
  function Served(entries: Entries, key: string, now: int, answer: Option<string>): Option<string> {
    if Fresh(entries, key, now) then Some(entries[At(entries, key)].body) else answer
  }

  class Cache {
    var entries: Entries

    constructor ()
      ensures entries == []
    {
      entries := [];
    }

    /** `asked` tells whether the request went out to the vendor. */
    method FetchPage(key: string, now: int, answer: Option<string>) returns (body: Option<string>, asked: bool)
      modifies this
      ensures entries == After(old(entries), key, now, answer)
      ensures body == Served(old(entries), key, now, answer)
      ensures asked == !Fresh(old(entries), key, now)
    {
      var i := At(entries, key);
      if i < |entries| && now - entries[i].at < TTL {
        var cached := entries[i];
        entries := Without(entries, i);
        entries := entries + [cached];
        return Some(cached.body), false;
      }
      if answer.None? {
        return None, true;
      }
      entries := Set(entries, Entry(key, now, answer.value));
      ghost var full := entries;
      while |entries| > MAX_ENTRIES
        invariant |entries| <= |full| && entries == full[|full| - |entries|..]
        invariant if |full| >= MAX_ENTRIES then |entries| >= MAX_ENTRIES else entries == full
      {
        entries := entries[1..];
      }
      return answer, true;
    }
  }

  // ---------------------------------------------------------------- what is served

  ghost predicate Distinct(entries: Entries) {
    forall i, j | 0 <= i < j < |entries| :: entries[i].key != entries[j].key
  }

  datatype Ask = Ask(key: string, now: int, answer: Option<string>)

  /** Everything the vendor ever answered: to which request, when, and what. */
  ghost predicate Backed(entries: Entries, answered: set<Entry>, now: int) {
    Distinct(entries) && |entries| <= MAX_ENTRIES && forall e | e in entries :: e in answered && e.at <= now
  }

  function Run(entries: Entries, asks: seq<Ask>): Entries
    decreases |asks|
  {
    if asks == [] then entries else Run(After(entries, asks[0].key, asks[0].now, asks[0].answer), asks[1..])
  }

  ghost predicate InOrder(now: int, asks: seq<Ask>)
    decreases |asks|
  {
    asks == [] || (now <= asks[0].now && InOrder(asks[0].now, asks[1..]))
  }

  /** The vendor's answers to the asks that reach it, and those it gave before. */
  ghost function Answered(answered: set<Entry>, asks: seq<Ask>): set<Entry> {
    answered + set a | a in asks && a.answer.Some? :: Entry(a.key, a.now, a.answer.value)
  }

  lemma DistinctAt(entries: Entries, i: nat)
    requires Distinct(entries) && i < |entries|
    ensures At(entries, entries[i].key) == i
  {
  }

  lemma RotatedStaysDistinct(entries: Entries, i: nat)
    requires Distinct(entries) && i < |entries|
    ensures Distinct(Without(entries, i) + [entries[i]])
    ensures forall e :: e in Without(entries, i) + [entries[i]] <==> e in entries
  {
    var out := Without(entries, i) + [entries[i]];
    assert forall j | 0 <= j < |out| ::
             out[j] == if j < i then entries[j] else if j < |entries| - 1 then entries[j + 1] else entries[i];
    assert entries == entries[..i] + [entries[i]] + entries[i + 1..];
  }

  lemma SetStaysDistinct(entries: Entries, entry: Entry)
    requires Distinct(entries)
    ensures Distinct(Set(entries, entry)) && forall e | e in Set(entries, entry) :: e == entry || e in entries
  {
  }

  lemma TrimmedStaysDistinct(entries: Entries)
    requires Distinct(entries)
    ensures Distinct(Trimmed(entries)) && forall e | e in Trimmed(entries) :: e in entries
  {
  }

  lemma AskKeepsBacked(entries: Entries, answered: set<Entry>, before: int, ask: Ask)
    requires Backed(entries, answered, before) && before <= ask.now
    ensures Backed(After(entries, ask.key, ask.now, ask.answer), Answered(answered, [ask]), ask.now)
  {
    hide Distinct, Without, Set, Trimmed;
    if Fresh(entries, ask.key, ask.now) {
      RotatedStaysDistinct(entries, At(entries, ask.key));
      RotatedLength(entries, At(entries, ask.key));
    } else if ask.answer.Some? {
      var entry := Entry(ask.key, ask.now, ask.answer.value);
      SetStaysDistinct(entries, entry);
      TrimmedStaysDistinct(Set(entries, entry));
      assert ask in [ask];
      assert entry in Answered(answered, [ask]);
    }
  }

  lemma RotatedLength(entries: Entries, i: nat)
    requires i < |entries|
    ensures |Without(entries, i) + [entries[i]]| == |entries|
  {
  }

  lemma {:induction false} RunKeepsBacked(entries: Entries, answered: set<Entry>, now: int, asks: seq<Ask>)
    requires Backed(entries, answered, now) && InOrder(now, asks)
    ensures Backed(Run(entries, asks), Answered(answered, asks), LastTime(now, asks))
    decreases |asks|
  {
    hide Backed, After;
    if asks == [] {
      assert Answered(answered, asks) == answered;
    } else {
      var next := After(entries, asks[0].key, asks[0].now, asks[0].answer);
      AskKeepsBacked(entries, answered, now, asks[0]);
      RunKeepsBacked(next, Answered(answered, [asks[0]]), asks[0].now, asks[1..]);
      assert asks == [asks[0]] + asks[1..];
      assert Answered(Answered(answered, [asks[0]]), asks[1..]) == Answered(answered, asks);
    }
  }

  function LastTime(now: int, asks: seq<Ask>): int
    decreases |asks|
  {
    if asks == [] then now else LastTime(asks[0].now, asks[1..])
  }

  /**
   * Over any requests, a page is only ever served for the very request it was fetched for, at most an hour after
   * the vendor gave it, and never more than 600 pages are kept.
   */
  lemma ServedPagesAreRecent(now: int, asks: seq<Ask>, ask: Ask)
    requires InOrder(now, asks) && LastTime(now, asks) <= ask.now
    ensures |Run([], asks)| <= 600
    ensures var body := Served(Run([], asks), ask.key, ask.now, ask.answer);
            body.Some? ==> exists at ::
              && Entry(ask.key, at, body.value) in Answered({}, asks + [ask])
              && ask.now - 60 * 60 * 1_000 < at <= ask.now
  {
    RunKeepsBacked([], {}, now, asks);
    var entries := Run([], asks);
    if Fresh(entries, ask.key, ask.now) {
      var e := entries[At(entries, ask.key)];
      assert e in entries;
      assert forall a | a in asks :: a in asks + [ask];
      assert e == Entry(ask.key, e.at, e.body);
      assert e in Answered({}, asks + [ask]);
    } else if ask.answer.Some? {
      assert ask in asks + [ask];
      assert Entry(ask.key, ask.now, ask.answer.value) in Answered({}, asks + [ask]);
    }
  }

  // ---------------------------------------------------------------- a second walk over the same pages

  ghost predicate Walk(asks: seq<Ask>) {
    && |asks| <= MAX_ENTRIES
    && (forall i, j | 0 <= i < j < |asks| :: asks[i].key != asks[j].key)
  }

  function EntryOf(ask: Ask): Entry {
    Entry(ask.key, ask.now, if ask.answer.Some? then ask.answer.value else "")
  }

  function EntriesOf(asks: seq<Ask>): Entries {
    seq(|asks|, i requires 0 <= i < |asks| => EntryOf(asks[i]))
  }

  /** The youngest entries, in order. */
  ghost predicate EndsWith(entries: Entries, suffix: Entries) {
    |suffix| <= |entries| && forall i | 0 <= i < |suffix| :: entries[|entries| - |suffix| + i] == suffix[i]
  }

  ghost predicate Absent(entries: Entries, key: string) {
    forall e | e in entries :: e.key != key
  }

  lemma AbsentHasNoPlace(entries: Entries, key: string)
    requires Absent(entries, key)
    ensures At(entries, key) == |entries|
  {
  }

  lemma AppendAt(entries: Entries, suffix: Entries, entry: Entry, i: nat)
    requires EndsWith(entries, suffix) && |suffix| < MAX_ENTRIES && i <= |suffix|
    ensures var kept := Trimmed(entries + [entry]);
            |suffix| < |kept| && kept[|kept| - |suffix| - 1 + i] == if i < |suffix| then suffix[i] else entry
  {
    var all := entries + [entry];
    var kept := Trimmed(all);
    var k := |kept| - |suffix| - 1 + i;
    assert kept[k] == all[|all| - |kept| + k];
    if i < |suffix| {
      assert entries[|entries| - |suffix| + i] == suffix[i];
    }
  }

  lemma AppendEndsWith(entries: Entries, suffix: Entries, entry: Entry)
    requires EndsWith(entries, suffix) && Absent(entries, entry.key) && |suffix| < MAX_ENTRIES
    ensures EndsWith(Trimmed(Set(entries, entry)), suffix + [entry])
  {
    hide Absent, Trimmed;
    AbsentHasNoPlace(entries, entry.key);
    var kept := Trimmed(entries + [entry]);
    AppendAt(entries, suffix, entry, 0);
    forall i | 0 <= i < |suffix| + 1
      ensures kept[|kept| - |suffix| - 1 + i] == (suffix + [entry])[i]
    {
      AppendAt(entries, suffix, entry, i);
    }
  }

  lemma StaysAbsent(entries: Entries, entry: Entry, key: string)
    requires Absent(entries, key) && key != entry.key
    ensures Absent(Trimmed(Set(entries, entry)), key)
  {
  }

  /** Pages fetched cold are the youngest entries, in the order of the walk. */
  lemma {:induction false} ColdWalkFills(entries: Entries, asks: seq<Ask>, i: nat)
    requires Walk(asks) && i <= |asks|
    requires forall a | a in asks :: a.answer.Some? && Absent(entries, a.key)
    ensures EndsWith(Run(entries, asks[..i]), EntriesOf(asks[..i]))
    ensures forall j | i <= j < |asks| :: Absent(Run(entries, asks[..i]), asks[j].key)
  {
    hide EndsWith, Absent, Trimmed, Set, Fresh, At, Run;
    if i == 0 {
      ColdStart(entries, asks);
    } else {
      ColdWalkFills(entries, asks, i - 1);
      var before, ask := Run(entries, asks[..i - 1]), asks[i - 1];
      RunAppends(entries, asks[..i - 1], ask);
      assert asks[..i] == asks[..i - 1] + [ask];
      AbsentIsNotFresh(before, ask.key, ask.now);
      AppendEndsWith(before, EntriesOf(asks[..i - 1]), EntryOf(ask));
      forall j | i <= j < |asks|
        ensures Absent(Run(entries, asks[..i]), asks[j].key)
      {
        StaysAbsent(before, EntryOf(ask), asks[j].key);
      }
      assert EntriesOf(asks[..i]) == EntriesOf(asks[..i - 1]) + [EntryOf(ask)];
    }
  }

  lemma ColdStart(entries: Entries, asks: seq<Ask>)
    ensures Run(entries, asks[..0]) == entries && EndsWith(entries, EntriesOf(asks[..0]))
  {
  }

  lemma AbsentIsNotFresh(entries: Entries, key: string, now: int)
    requires Absent(entries, key)
    ensures !Fresh(entries, key, now)
  {
  }

  lemma {:induction false} RunAppends(entries: Entries, asks: seq<Ask>, ask: Ask)
    ensures Run(entries, asks + [ask]) == After(Run(entries, asks), ask.key, ask.now, ask.answer)
    decreases |asks|
  {
    hide After;
    if asks == [] {
      assert (asks + [ask])[1..] == [];
    } else {
      assert (asks + [ask])[1..] == asks[1..] + [ask];
      RunAppends(After(entries, asks[0].key, asks[0].now, asks[0].answer), asks[1..], ask);
    }
  }

  lemma RotateAt(entries: Entries, suffix: Entries, i: nat)
    requires EndsWith(entries, suffix) && i < |suffix|
    ensures var start := |entries| - |suffix|;
            var out := Without(entries, start) + [entries[start]];
            |out| == |entries| && out[start + i] == if i + 1 < |suffix| then suffix[i + 1] else suffix[0]
  {
    hide Without;
    var start := |entries| - |suffix|;
    RotatedIndex(entries, start);
    assert entries[start + 0] == suffix[0];
    if i + 1 < |suffix| {
      assert entries[start + (i + 1)] == suffix[i + 1];
    }
  }

  lemma SuffixStarts(entries: Entries, suffix: Entries)
    requires EndsWith(entries, suffix) && suffix != []
    ensures |suffix| <= |entries| && entries[|entries| - |suffix|] == suffix[0]
  {
    assert entries[|entries| - |suffix| + 0] == suffix[0];
  }

  lemma RotateByPlace(entries: Entries, suffix: Entries)
    requires EndsWith(entries, suffix) && suffix != []
    ensures |suffix| <= |entries|
    ensures var start := |entries| - |suffix|;
            EndsWith(Without(entries, start) + [entries[start]], suffix[1..] + [suffix[0]])
  {
    hide Without;
    RotateAt(entries, suffix, 0);
    forall i | 0 <= i < |suffix|
      ensures (Without(entries, |entries| - |suffix|) + [entries[|entries| - |suffix|]])[|entries| - |suffix| + i] ==
                (suffix[1..] + [suffix[0]])[i]
    {
      RotateAt(entries, suffix, i);
    }
  }

  lemma RotateEndsWith(entries: Entries, suffix: Entries)
    requires Distinct(entries) && EndsWith(entries, suffix) && suffix != []
    ensures At(entries, suffix[0].key) < |entries| && entries[At(entries, suffix[0].key)] == suffix[0]
    ensures EndsWith(Without(entries, At(entries, suffix[0].key)) + [suffix[0]], suffix[1..] + [suffix[0]])
  {
    hide Without, Distinct, EndsWith, At;
    SuffixStarts(entries, suffix);
    DistinctAt(entries, |entries| - |suffix|);
    RotateByPlace(entries, suffix);
  }

  lemma RotatedIndex(entries: Entries, i: nat)
    requires i < |entries|
    ensures var out := Without(entries, i) + [entries[i]];
            |out| == |entries| && forall j | 0 <= j < |out| ::
              out[j] == if j < i then entries[j] else if j + 1 < |entries| then entries[j + 1] else entries[i]
  {
  }

  /** The pages of a walk after k of them have been walked again. */
  function Turned(pages: Entries, k: nat): Entries
    requires k <= |pages|
  {
    pages[k..] + pages[..k]
  }

  lemma TurnOnce(pages: Entries, j: nat)
    requires j < |pages|
    ensures |Turned(pages, j)| == |pages| && Turned(pages, j)[0] == pages[j] &&
              Turned(pages, j)[1..] + [pages[j]] == Turned(pages, j + 1)
  {
  }

  lemma NoTurn(pages: Entries)
    ensures Turned(pages, 0) == pages
  {
  }

  /** One page of a later walk: served from the first walk's answer, and moved to the young end. */
  lemma RepeatOne(entries: Entries, pages: Entries, j: nat, ask: Ask)
    requires Distinct(entries) && j < |pages| && EndsWith(entries, Turned(pages, j))
    requires ask.key == pages[j].key && ask.now - pages[j].at < TTL
    ensures Fresh(entries, ask.key, ask.now) && Served(entries, ask.key, ask.now, ask.answer) == Some(pages[j].body)
    ensures var next := After(entries, ask.key, ask.now, ask.answer);
            Distinct(next) && EndsWith(next, Turned(pages, j + 1))
  {
    hide Distinct, EndsWith, Without, Turned;
    TurnOnce(pages, j);
    RotateEndsWith(entries, Turned(pages, j));
    RotatedStaysDistinct(entries, At(entries, ask.key));
  }

  /** A later walk of the same pages within the hour: the j-th page is served from the first walk's answer. */
  lemma {:induction false} RepeatServes(entries: Entries, pages: Entries, second: seq<Ask>, k: nat)
    requires Distinct(entries) && EndsWith(entries, pages) && |second| == |pages| && k <= |second|
    requires forall j | 0 <= j < |second| :: second[j].key == pages[j].key && second[j].now - pages[j].at < TTL
    ensures Distinct(Run(entries, second[..k])) && EndsWith(Run(entries, second[..k]), Turned(pages, k))
  {
    hide Distinct, EndsWith, Turned, After, Run, Fresh, Served;
    if k == 0 {
      NoTurn(pages);
      NoAsks(entries, second);
    } else {
      RepeatServes(entries, pages, second, k - 1);
      RunAppends(entries, second[..k - 1], second[k - 1]);
      assert second[..k] == second[..k - 1] + [second[k - 1]];
      RepeatOne(Run(entries, second[..k - 1]), pages, k - 1, second[k - 1]);
    }
  }

  lemma NoAsks(entries: Entries, asks: seq<Ask>)
    ensures Run(entries, asks[..0]) == entries
  {
  }

  /**
   * A scan group's later members walk for free: after a cold walk of up to 600 pages, walking them again within
   * the hour is served entirely from the cache, with the answers of the first walk.
   */
  lemma SecondWalkAsksNothing(entries: Entries, first: seq<Ask>, second: seq<Ask>, k: nat)
    requires Distinct(entries) && |entries| <= MAX_ENTRIES && Walk(first)
    requires forall a | a in first :: a.answer.Some? && Absent(entries, a.key)
    requires |second| == |first| && k < |second|
    requires forall j | 0 <= j < |second| :: second[j].key == first[j].key && second[j].now - first[j].now < TTL
    ensures Fresh(Run(Run(entries, first), second[..k]), second[k].key, second[k].now)
    ensures Served(Run(Run(entries, first), second[..k]), second[k].key, second[k].now, second[k].answer) ==
              first[k].answer
  {
    hide Distinct, EndsWith, Absent, Fresh, Served, Run, After, Turned;
    ColdWalkFills(entries, first, |first|);
    assert first[..|first|] == first;
    RunStaysDistinct(entries, first);
    RepeatServes(Run(entries, first), EntriesOf(first), second, k);
    RepeatOne(Run(Run(entries, first), second[..k]), EntriesOf(first), k, second[k]);
  }

  lemma {:induction false} RunStaysDistinct(entries: Entries, asks: seq<Ask>)
    requires Distinct(entries)
    ensures Distinct(Run(entries, asks))
    decreases |asks|
  {
    hide Distinct, Without, Set, Trimmed;
    if asks != [] {
      var a := asks[0];
      if Fresh(entries, a.key, a.now) {
        RotatedStaysDistinct(entries, At(entries, a.key));
      } else if a.answer.Some? {
        SetStaysDistinct(entries, EntryOf(a));
        TrimmedStaysDistinct(Set(entries, EntryOf(a)));
      }
      RunStaysDistinct(After(entries, a.key, a.now, a.answer), asks[1..]);
    }
  }

  // ---------------------------------------------------------------- why the walk has to be cold

  ghost predicate AllNew(entries: Entries, asks: seq<Ask>) {
    && (forall i, j | 0 <= i < j < |asks| :: asks[i].key != asks[j].key)
    && (forall a | a in asks :: a.answer.Some? && Absent(entries, a.key))
  }

  lemma TrimTwice(all: Entries, entry: Entry)
    ensures Trimmed(Trimmed(all) + [entry]) == Trimmed(all + [entry])
  {
  }

  lemma AbsentFromMore(entries: Entries, asks: seq<Ask>, k: nat)
    requires AllNew(entries, asks) && k < |asks|
    ensures Absent(entries + EntriesOf(asks[..k]), asks[k].key)
    ensures Absent(Trimmed(entries + EntriesOf(asks[..k])), asks[k].key)
  {
    var all := entries + EntriesOf(asks[..k]);
    forall e | e in all
      ensures e.key != asks[k].key
    {
      var j :| 0 <= j < |all| && all[j] == e;
      assert j < |entries| ==> entries[j] in entries;
      assert j >= |entries| ==> e == EntryOf(asks[j - |entries|]);
    }
    TrimmedMembers(all);
  }

  lemma TrimmedMembers(entries: Entries)
    ensures forall e | e in Trimmed(entries) :: e in entries
  {
  }

  /** New pages line up behind what is there, and the oldest make way. */
  lemma {:induction false} NewPagesLineUp(entries: Entries, asks: seq<Ask>, k: nat)
    requires |entries| <= MAX_ENTRIES && AllNew(entries, asks) && k <= |asks|
    ensures Run(entries, asks[..k]) == Trimmed(entries + EntriesOf(asks[..k]))
  {
    hide AllNew, Absent, Trimmed, Fresh, At, Run;
    if k == 0 {
      NothingLinesUp(entries, asks);
    } else {
      var before, ask := entries + EntriesOf(asks[..k - 1]), asks[k - 1];
      NewPagesLineUp(entries, asks, k - 1);
      AbsentFromMore(entries, asks, k - 1);
      RunAppends(entries, asks[..k - 1], ask);
      assert asks[..k] == asks[..k - 1] + [ask];
      AbsentIsNotFresh(Trimmed(before), ask.key, ask.now);
      AbsentHasNoPlace(Trimmed(before), ask.key);
      NewAnswers(entries, asks, k - 1);
      TrimTwice(before, EntryOf(ask));
      assert before + [EntryOf(ask)] == entries + EntriesOf(asks[..k]);
    }
  }

  lemma NothingLinesUp(entries: Entries, asks: seq<Ask>)
    requires |entries| <= MAX_ENTRIES
    ensures Run(entries, asks[..0]) == Trimmed(entries + EntriesOf(asks[..0]))
  {
    assert entries + EntriesOf(asks[..0]) == entries;
  }

  lemma NewAnswers(entries: Entries, asks: seq<Ask>, k: nat)
    requires AllNew(entries, asks) && k < |asks|
    ensures asks[k].answer.Some?
  {
    assert asks[k] in asks;
  }

  /** What is left of a list in which a key has one place. */
  lemma PlaceSurvivesTrim(all: Entries, i: nat)
    requires i < |all| && forall j | 0 <= j < |all| && j != i :: all[j].key != all[i].key
    ensures Absent(Trimmed(all), all[i].key) <==> i + MAX_ENTRIES < |all|
  {
    var kept := Trimmed(all);
    if i + MAX_ENTRIES < |all| {
      forall e | e in kept
        ensures e.key != all[i].key
      {
        var j :| 0 <= j < |kept| && kept[j] == e;
        assert e == all[|all| - MAX_ENTRIES + j];
      }
    } else {
      var d := |all| - |kept|;
      assert kept[i - d] == all[i];
      assert all[i] in kept;
    }
  }

  lemma RefetchKeepsPlace(entries: Entries, stale: Ask)
    requires Distinct(entries) && |entries| <= MAX_ENTRIES && stale.answer.Some?
    requires At(entries, stale.key) < |entries| && !Fresh(entries, stale.key, stale.now)
    ensures var i := At(entries, stale.key);
            After(entries, stale.key, stale.now, stale.answer) == entries[i := EntryOf(stale)]
  {
  }

  lemma OnlyPlace(entries: Entries, stale: Ask, asks: seq<Ask>)
    requires Distinct(entries) && At(entries, stale.key) < |entries| && AllNew(entries, asks)
    ensures var i := At(entries, stale.key);
            var all := entries[i := EntryOf(stale)] + EntriesOf(asks);
            forall j | 0 <= j < |all| && j != i :: all[j].key != stale.key
    ensures AllNew(entries[At(entries, stale.key) := EntryOf(stale)], asks)
  {
    var i := At(entries, stale.key);
    assert entries[i] in entries;
    forall j | 0 <= j < |asks|
      ensures asks[j].key != stale.key
    {
      assert asks[j] in asks;
    }
  }

  /**
   * A page that was still listed but stale is fetched again without becoming young. Found at place i of m entries and
   * followed by k new pages, it is gone exactly when i + 600 < m + k; in a full cache the oldest page goes at once.
   */
  lemma RefetchedStalePageGoneExactly(entries: Entries, stale: Ask, asks: seq<Ask>)
    requires Distinct(entries) && |entries| <= MAX_ENTRIES && stale.answer.Some? && AllNew(entries, asks)
    requires At(entries, stale.key) < |entries| && !Fresh(entries, stale.key, stale.now)
    ensures Absent(Run(entries, [stale] + asks), stale.key) <==>
              At(entries, stale.key) + 600 < |entries| + |asks|
  {
    hide Distinct, AllNew, Absent, Trimmed, Fresh, At;
    var i := At(entries, stale.key);
    var kept := entries[i := EntryOf(stale)];
    RefetchKeepsPlace(entries, stale);
    OnlyPlace(entries, stale, asks);
    NewPagesLineUp(kept, asks, |asks|);
    assert asks[..|asks|] == asks && ([stale] + asks)[1..] == asks;
    PlaceSurvivesTrim(kept + EntriesOf(asks), i);
  }
}
