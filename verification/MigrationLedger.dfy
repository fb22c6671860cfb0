/**
 * Migrations applied one transaction at a time under an advisory lock, with a ledger row committed beside each body.
 * The administrator upgrade stream has the same shape. A session may be lost after any statement.
 */
module MigrationLedger {
  import opened Wrappers

  /** A migration file: its four-digit version, the rest of its name, and the checksum of its text. */
  datatype Entry = Entry(id: Id, checksum: string)

  datatype Id = Id(version: nat, name: string)

  /** The ledger table, keyed by migration id. */
  type Ledger = map<Id, string>

  /** What the SQL of an entry does to a schema; None when it raises an error. */
  type Bodies<!S> = Entry -> (S -> Option<S>)

  datatype Fault = NoMigrations | DuplicateVersion(version: nat) | NotOneTransaction(id: Id) | MissingFromRelease |
                   NotAPrefix(position: nat) | ChangedAfterApplied(position: nat) | BodyFailed(position: nat)

  datatype Ending = Completed | Failed(fault: Fault) | Lost

  // ---------------------------------------------------------------- loading a release

  /** Strictly increasing versions: what a loaded directory always is. */
  ghost predicate Release(entries: seq<Entry>) {
    forall i, j | 0 <= i < j < |entries| :: entries[i].id.version < entries[j].id.version
  }

  ghost predicate ByVersion(entries: seq<Entry>) {
    forall i, j | 0 <= i < j < |entries| :: entries[i].id.version <= entries[j].id.version
  }

  function Place(entry: Entry, entries: seq<Entry>): seq<Entry> {
    if entries == [] || entry.id.version <= entries[0].id.version then [entry] + entries
    else [entries[0]] + Place(entry, entries[1..])
  }

  function Ordered(files: seq<Entry>): seq<Entry> {
    if files == [] then [] else Place(files[0], Ordered(files[1..]))
  }

  lemma {:induction false} PlaceMembers(entry: Entry, entries: seq<Entry>)
    ensures multiset(Place(entry, entries)) == multiset{entry} + multiset(entries)
    ensures forall x :: x in Place(entry, entries) <==> x == entry || x in entries
  {
    if entries != [] {
      PlaceMembers(entry, entries[1..]);
      assert entries == [entries[0]] + entries[1..];
    }
  }

  lemma ConsByVersion(entry: Entry, entries: seq<Entry>)
    requires ByVersion(entries) && forall x | x in entries :: entry.id.version <= x.id.version
    ensures ByVersion([entry] + entries)
  {
  }

  lemma {:induction false} PlaceKeepsOrder(entry: Entry, entries: seq<Entry>)
    requires ByVersion(entries)
    ensures ByVersion(Place(entry, entries))
  {
    if entries == [] {
    } else if entry.id.version <= entries[0].id.version {
      ConsByVersion(entry, entries);
    } else {
      PlaceKeepsOrder(entry, entries[1..]);
      PlaceMembers(entry, entries[1..]);
      ConsByVersion(entries[0], Place(entry, entries[1..]));
    }
  }

  lemma {:induction false} OrderedKeepsFiles(files: seq<Entry>)
    ensures ByVersion(Ordered(files)) && multiset(Ordered(files)) == multiset(files) && |Ordered(files)| == |files|
  {
    if files != [] {
      OrderedKeepsFiles(files[1..]);
      PlaceKeepsOrder(files[0], Ordered(files[1..]));
      PlaceMembers(files[0], Ordered(files[1..]));
      assert files == [files[0]] + files[1..];
      assert |multiset(Ordered(files))| == |multiset(files)|;
    }
  }

  ghost predicate RepeatsVersion(entries: seq<Entry>) {
    exists i, j :: 0 <= i < j < |entries| && entries[i].id.version == entries[j].id.version
  }

  function Versions(entries: seq<Entry>): set<nat> {
    set e | e in entries :: e.id.version
  }

  lemma NothingYet()
    ensures Release([]) && Versions([]) == {}
  {
  }

  lemma VersionsGrow(entries: seq<Entry>, i: nat)
    requires i < |entries|
    ensures Versions(entries[..i + 1]) == Versions(entries[..i]) + {entries[i].id.version}
  {
    assert entries[..i + 1] == entries[..i] + [entries[i]];
  }

  lemma SeenVersionRepeats(entries: seq<Entry>, i: nat)
    requires i < |entries| && entries[i].id.version in Versions(entries[..i])
    ensures RepeatsVersion(entries)
  {
    var k :| 0 <= k < i && entries[..i][k].id.version == entries[i].id.version;
    assert entries[k].id.version == entries[i].id.version;
  }

  lemma NewVersionExtends(entries: seq<Entry>, i: nat)
    requires ByVersion(entries) && i < |entries| && Release(entries[..i]) &&
               entries[i].id.version !in Versions(entries[..i])
    ensures Release(entries[..i + 1])
  {
    forall k | 0 <= k < i
      ensures entries[k].id.version < entries[i].id.version
    {
      assert entries[..i][k] in entries[..i];
    }
    assert forall k | 0 <= k < i :: entries[..i][k] == entries[k] && entries[..i + 1][k] == entries[k];
  }

  /**
   * Loading succeeds exactly on a non-empty directory without two files of one version and with one explicit
   * transaction in each, whatever its listing order.
   */
  method LoadMigrations(files: seq<Entry>, framed: Id -> bool) returns (r: Result<seq<Entry>, Fault>)
    ensures r.Ok? <==> files != [] && Release(Ordered(files)) && forall f | f in files :: framed(f.id)
    ensures r.Ok? ==> r.value == Ordered(files) && multiset(r.value) == multiset(files)
    ensures r.Err? ==> match r.error
                       case NoMigrations => files == []
                       case DuplicateVersion(_) => RepeatsVersion(Ordered(files))
                       case NotOneTransaction(id) => !framed(id) && exists f :: f in files && f.id == id
                       case _ => false
  {
    if files == [] {
      return Err(NoMigrations);
    }
    OrderedKeepsFiles(files);
    OrderedMembers(files);
    hide Ordered, Versions, ByVersion;
    var entries := Ordered(files);
    assert Release(entries[..0]) && Versions(entries[..0]) == {} by {
      NothingYet();
      assert entries[..0] == [];
    }
    var versions: set<nat> := {};
    for i := 0 to |entries|
      invariant versions == Versions(entries[..i]) && Release(entries[..i])
      invariant forall k | 0 <= k < i :: framed(entries[k].id)
    {
      VersionsGrow(entries, i);
      if entries[i].id.version in versions {
        SeenVersionRepeats(entries, i);
        RepeatIsNoRelease(entries);
        return Err(DuplicateVersion(entries[i].id.version));
      }
      NewVersionExtends(entries, i);
      versions := versions + {entries[i].id.version};
      if !framed(entries[i].id) {
        assert entries[i] in files;
        return Err(NotOneTransaction(entries[i].id));
      }
    }
    assert entries[..|entries|] == entries;
    r := Ok(entries);
  }

  lemma OrderedMembers(files: seq<Entry>)
    ensures forall f :: f in Ordered(files) <==> f in files
  {
    hide Ordered;
    OrderedKeepsFiles(files);
    forall f
      ensures f in Ordered(files) <==> f in files
    {
      assert f in Ordered(files) <==> f in multiset(Ordered(files));
    }
  }

  lemma RepeatIsNoRelease(entries: seq<Entry>)
    requires RepeatsVersion(entries)
    ensures !Release(entries)
  {
  }

  // ---------------------------------------------------------------- the prefix check

  function FirstDifference(release: seq<Entry>, applied: seq<Entry>): (i: nat)
    ensures i <= |applied| && i <= |release| && applied[..i] == release[..i]
    ensures i < |applied| && i < |release| ==> applied[i] != release[i]
    ensures i == |applied| || i == |release| || applied[i] != release[i]
  {
    if applied == [] || release == [] || applied[0] != release[0] then 0
    else 1 + FirstDifference(release[1..], applied[1..])
  }

  /** Passes if and only if what was applied is exactly how the release begins; otherwise names the first deviation. */
  method AssertExactMigrationPrefix(release: seq<Entry>, applied: seq<Entry>) returns (fault: Option<Fault>)
    ensures fault.None? <==> applied <= release
    ensures fault.Some? && |applied| > |release| ==> fault.value == MissingFromRelease
    ensures fault.Some? && |applied| <= |release| ==>
              exists i | 0 <= i < |applied| ::
                && applied[..i] == release[..i] && applied[i] != release[i]
                && fault.value == if applied[i].id != release[i].id then NotAPrefix(i) else ChangedAfterApplied(i)
  {
    if |applied| > |release| {
      return Some(MissingFromRelease);
    }
    for i := 0 to |applied|
      invariant applied[..i] == release[..i]
    {
      if applied[i].id != release[i].id {
        return Some(NotAPrefix(i));
      }
      if applied[i].checksum != release[i].checksum {
        return Some(ChangedAfterApplied(i));
      }
    }
    fault := None;
  }

  // ---------------------------------------------------------------- the ledger table

  function TableOf(entries: seq<Entry>): Ledger {
    if entries == [] then map[]
    else
      var last := entries[|entries| - 1];
      TableOf(entries[..|entries| - 1])[last.id := last.checksum]
  }

  /** What `ORDER BY migration_id` may return: every row once, by version. */
  ghost predicate Reads(ledger: Ledger, rows: seq<Entry>) {
    && ByVersion(rows)
    && (forall i, j | 0 <= i < j < |rows| :: rows[i].id != rows[j].id)
    && (forall row :: row in rows <==> row.id in ledger && ledger[row.id] == row.checksum)
  }

  // ---------------------------------------------------------------- a database and one run

  datatype State<S> = State(ledger: Ledger, schema: S)

  /** What is committed, and the transaction in progress if there is one. */
  class Database<S> {
    var committed: State<S>
    var pending: Option<State<S>>

    constructor (state: State<S>)
      ensures committed == state && pending.None?
    {
      committed := state;
      pending := None;
    }

    method Begin()
      modifies this`pending
      ensures pending == Some(committed)
    {
      pending := Some(committed);
    }

    method Execute(body: S -> Option<S>) returns (ok: bool)
      requires pending.Some?
      modifies this`pending
      ensures ok == body(old(pending.value.schema)).Some?
      ensures ok ==> pending == Some(old(pending.value).(schema := body(old(pending.value.schema)).value))
    {
      var result := body(pending.value.schema);
      ok := result.Some?;
      if ok {
        pending := Some(pending.value.(schema := result.value));
      }
    }

    method Insert(entry: Entry) returns (ok: bool)
      requires pending.Some?
      modifies this`pending
      ensures ok == (entry.id !in old(pending.value.ledger))
      ensures ok ==>
                pending == Some(old(pending.value).(ledger := old(pending.value.ledger)[entry.id := entry.checksum]))
    {
      ok := entry.id !in pending.value.ledger;
      if ok {
        pending := Some(pending.value.(ledger := pending.value.ledger[entry.id := entry.checksum]));
      }
    }

    method Commit()
      requires pending.Some?
      modifies this
      ensures committed == old(pending.value) && pending.None?
    {
      committed := pending.value;
      pending := None;
    }

    /** Also what losing the session does. */
    method Rollback()
      modifies this`pending
      ensures pending.None?
    {
      pending := None;
    }
  }

  /** Begin, body, ledger row and commit. */
  const STATEMENTS := 4

  /** The rest of a run from entry n on, when the session survives so many statements. */
  function Applied<S>(state: State<S>, release: seq<Entry>, n: nat, statements: nat,
                      bodies: Bodies<S>): (State<S>, Ending)
    decreases |release| - n
  {
    if n >= |release| then (state, Completed)
    else if statements < 2 then (state, Lost)
    else
      match bodies(release[n])(state.schema)
      case None => (state, Failed(BodyFailed(n)))
      case Some(schema) =>
        if statements < 3 then (state, Lost)
        else if release[n].id in state.ledger then (state, Failed(BodyFailed(n)))
        else if statements < STATEMENTS then (state, Lost)
        else
          Applied(State(state.ledger[release[n].id := release[n].checksum], schema), release, n + 1,
                  statements - STATEMENTS, bodies)
  }

  /** A whole run on what it reads from the ledger. */
  function RunOnce<S>(state: State<S>, release: seq<Entry>, rows: seq<Entry>, statements: nat,
                      bodies: Bodies<S>): (State<S>, Ending) {
    if |rows| > |release| then (state, Failed(MissingFromRelease))
    else
      var i := FirstDifference(release, rows);
      if i < |rows| then
        (state, Failed(if rows[i].id != release[i].id then NotAPrefix(i) else ChangedAfterApplied(i)))
      else Applied(state, release, |rows|, statements, bodies)
  }

  method ApplyTarget<S>(db: Database<S>, release: seq<Entry>, rows: seq<Entry>, statements: nat, bodies: Bodies<S>)
    returns (ending: Ending)
    requires db.pending.None? && Reads(db.committed.ledger, rows)
    modifies db
    ensures db.pending.None?
    ensures (db.committed, ending) == RunOnce(old(db.committed), release, rows, statements, bodies)
  {
    var fault := AssertExactMigrationPrefix(release, rows);
    if fault.Some? {
      FirstDifferenceIsUnique(release, rows);
      return Failed(fault.value);
    }
    var left: nat := statements;
    ghost var begun := db.committed;
    for n := |rows| to |release|
      invariant db.pending.None?
      invariant Applied(begun, release, |rows|, statements, bodies) == Applied(db.committed, release, n, left, bodies)
    {
      if left == 0 {
        return Lost;
      }
      db.Begin();
      if left == 1 {
        db.Rollback();
        return Lost;
      }
      var ran := db.Execute(bodies(release[n]));
      if !ran {
        db.Rollback();
        return Failed(BodyFailed(n));
      }
      if left == 2 {
        db.Rollback();
        return Lost;
      }
      var recorded := db.Insert(release[n]);
      if !recorded {
        db.Rollback();
        return Failed(BodyFailed(n));
      }
      if left == 3 {
        db.Rollback();
        return Lost;
      }
      db.Commit();
      left := left - STATEMENTS;
    }
    ending := Completed;
  }

  lemma FirstDifferenceIsUnique(release: seq<Entry>, rows: seq<Entry>)
    ensures rows <= release <==> |rows| <= |release| && FirstDifference(release, rows) == |rows|
    ensures forall i | 0 <= i < |rows| && i < |release| && rows[..i] == release[..i] && rows[i] != release[i] ::
              FirstDifference(release, rows) == i
  {
    var f := FirstDifference(release, rows);
    SamePrefixSameEntries(rows, release, f);
    forall i | 0 <= i < |rows| && i < |release| && rows[..i] == release[..i] && rows[i] != release[i]
      ensures f == i
    {
      SamePrefixSameEntries(rows, release, i);
      assert !(i < f) && !(f < i);
    }
  }

  lemma SamePrefixSameEntries(a: seq<Entry>, b: seq<Entry>, n: nat)
    requires n <= |a| && n <= |b| && a[..n] == b[..n]
    ensures forall i | 0 <= i < n :: a[i] == b[i]
  {
    assert forall i | 0 <= i < n :: a[i] == a[..n][i] && b[i] == b[..n][i];
  }

  // ---------------------------------------------------------------- any number of runs

  datatype Attempt = Attempt(release: seq<Entry>, rows: seq<Entry>, statements: nat)

  function Runs<S>(state: State<S>, attempts: seq<Attempt>, bodies: Bodies<S>): State<S>
    decreases |attempts|
  {
    if attempts == [] then state
    else
      var last := attempts[|attempts| - 1];
      RunOnce(Runs(state, attempts[..|attempts| - 1], bodies), last.release, last.rows, last.statements, bodies).0
  }

  /** The lock serialises runs, so each reads the ledger the one before it left. */
  ghost predicate Serialised<S>(state: State<S>, attempts: seq<Attempt>, bodies: Bodies<S>) {
    forall k | 0 <= k < |attempts| ::
      Release(attempts[k].release) && Reads(Runs(state, attempts[..k], bodies).ledger, attempts[k].rows)
  }

  /** The schema after the bodies of some entries, in order. */
  function Fold<S>(schema: S, entries: seq<Entry>, bodies: Bodies<S>): Option<S> {
    if entries == [] then Some(schema)
    else
      match Fold(schema, entries[..|entries| - 1], bodies)
      case None => None
      case Some(before) => bodies(entries[|entries| - 1])(before)
  }

  /** The ledger lists exactly these entries and the schema is what their bodies made of the original one. */
  ghost predicate Ledgered<S>(state: State<S>, origin: S, entries: seq<Entry>, bodies: Bodies<S>) {
    Release(entries) && state.ledger == TableOf(entries) && Fold(origin, entries, bodies) == Some(state.schema)
  }

  // ---------------------------------------------------------------- reading back the ledger

  lemma {:induction false} TableHolds(entries: seq<Entry>)
    requires Release(entries)
    ensures forall row: Entry ::
              row in entries <==> row.id in TableOf(entries) && TableOf(entries)[row.id] == row.checksum
  {
    if entries != [] {
      var front, last := entries[..|entries| - 1], entries[|entries| - 1];
      TableHolds(front);
      assert entries == front + [last];
      assert forall row | row in front :: row.id.version < last.id.version;
    }
  }

  lemma {:induction false} Unrecorded(entries: seq<Entry>, id: Id)
    requires forall e | e in entries :: e.id != id
    ensures id !in TableOf(entries)
  {
    if entries != [] {
      Unrecorded(entries[..|entries| - 1], id);
    }
  }

  lemma LastIsGreatest(a: seq<Entry>)
    requires Release(a) && a != []
    ensures var front, last := a[..|a| - 1], a[|a| - 1];
            && Release(front)
            && (forall row | row in front :: row.id.version < last.id.version)
            && (forall row :: row in a <==> row in front || row == last)
  {
    assert a == a[..|a| - 1] + [a[|a| - 1]];
  }

  lemma EmptyAlike(a: seq<Entry>, b: seq<Entry>)
    requires forall row :: row in a <==> row in b
    ensures a == [] ==> b == []
  {
    if b != [] {
      assert b[0] in a;
    }
  }

  lemma {:induction false} SameRowsSameOrder(a: seq<Entry>, b: seq<Entry>)
    requires Release(a) && Release(b) && forall row :: row in a <==> row in b
    ensures a == b
  {
    hide Release;
    EmptyAlike(a, b);
    EmptyAlike(b, a);
    if a != [] {
      LastIsGreatest(a);
      LastIsGreatest(b);
      assert a[|a| - 1] in b && b[|b| - 1] in a;
      SameRowsSameOrder(a[..|a| - 1], b[..|b| - 1]);
      assert a == a[..|a| - 1] + [a[|a| - 1]] && b == b[..|b| - 1] + [b[|b| - 1]];
    }
  }

  /** Read back by version, the ledger is the entries in the order they were applied. */
  lemma ReadsBack(entries: seq<Entry>, rows: seq<Entry>)
    requires Release(entries) && Reads(TableOf(entries), rows)
    ensures rows == entries
  {
    TableHolds(entries);
    assert forall row :: row in rows <==> row in entries;
    assert Release(rows) by {
      forall i, j | 0 <= i < j < |rows|
        ensures rows[i].id.version < rows[j].id.version
      {
        assert rows[i] in entries && rows[j] in entries;
      }
    }
    SameRowsSameOrder(rows, entries);
  }

  // ---------------------------------------------------------------- what every run keeps

  /** One more entry committed keeps ledger and schema in step. */
  lemma CommitKeepsLedger<S>(state: State<S>, release: seq<Entry>, n: nat, bodies: Bodies<S>, origin: S)
    requires Release(release) && n < |release| && Ledgered(state, origin, release[..n], bodies)
    ensures release[n].id !in state.ledger
    ensures bodies(release[n])(state.schema).Some? ==>
              Ledgered(State(state.ledger[release[n].id := release[n].checksum],
                             bodies(release[n])(state.schema).value), origin, release[..n + 1], bodies)
  {
    assert release[..n + 1][..n] == release[..n];
    Unrecorded(release[..n], release[n].id);
  }

  lemma {:induction false} AppliedKeepsLedger<S>(state: State<S>, release: seq<Entry>, n: nat, statements: nat,
                                                 bodies: Bodies<S>, origin: S) returns (m: nat)
    requires Release(release) && n <= |release| && Ledgered(state, origin, release[..n], bodies)
    ensures n <= m <= |release|
    ensures Ledgered(Applied(state, release, n, statements, bodies).0, origin, release[..m], bodies)
    ensures Applied(state, release, n, statements, bodies).1 == Completed ==> m == |release|
    decreases |release| - n
  {
    hide Ledgered, Release;
    m := n;
    if n < |release| {
      CommitKeepsLedger(state, release, n, bodies, origin);
    }
    if n < |release| && statements >= STATEMENTS && bodies(release[n])(state.schema).Some? {
      m := AppliedKeepsLedger(State(state.ledger[release[n].id := release[n].checksum],
                                    bodies(release[n])(state.schema).value),
                              release, n + 1, statements - STATEMENTS, bodies, origin);
    }
  }

  lemma LedgeredReadsBack<S>(state: State<S>, origin: S, entries: seq<Entry>, rows: seq<Entry>, bodies: Bodies<S>)
    requires Ledgered(state, origin, entries, bodies) && Reads(state.ledger, rows)
    ensures rows == entries
  {
    ReadsBack(entries, rows);
  }

  /**
   * One run: either what is ledgered does not begin the release, and the run ends in a fault with nothing changed;
   * or it does, and the run leaves a longer or equal beginning of the release ledgered, all of it on completion.
   */
  lemma RunExtendsOrRefuses<S>(state: State<S>, origin: S, entries: seq<Entry>, attempt: Attempt, bodies: Bodies<S>)
    returns (after: seq<Entry>)
    requires Ledgered(state, origin, entries, bodies) && Release(attempt.release) && Reads(state.ledger, attempt.rows)
    ensures var (state', ending) := RunOnce(state, attempt.release, attempt.rows, attempt.statements, bodies);
            && Ledgered(state', origin, after, bodies) && entries <= after
            && (!(entries <= attempt.release) ==> state' == state && ending.Failed? && !ending.fault.BodyFailed?)
            && (entries <= attempt.release ==> after <= attempt.release)
            && (ending == Completed ==> after == attempt.release)
  {
    LedgeredReadsBack(state, origin, entries, attempt.rows, bodies);
    hide Ledgered, Release, Reads, Applied, FirstDifference;
    FirstDifferenceIsUnique(attempt.release, entries);
    after := entries;
    if entries <= attempt.release {
      PrefixIsSlice(entries, attempt.release);
      var m := AppliedKeepsLedger(state, attempt.release, |entries|, attempt.statements, bodies, origin);
      after := attempt.release[..m];
    }
  }

  lemma PrefixIsSlice(entries: seq<Entry>, release: seq<Entry>)
    requires entries <= release
    ensures release[..|entries|] == entries
    ensures forall m | |entries| <= m <= |release| :: entries <= release[..m] <= release
    ensures release[..|release|] == release
  {
  }

  /**
   * Over any runs of any releases, each lost after any statement or failing anywhere, the ledger only grows, always
   * lists a version-ordered history, and the schema is the fold of exactly the ledgered bodies.
   */
  lemma {:induction false} LedgerMatchesSchema<S>(state: State<S>, origin: S, entries: seq<Entry>,
                                                  attempts: seq<Attempt>, bodies: Bodies<S>) returns (after: seq<Entry>)
    requires Ledgered(state, origin, entries, bodies) && Serialised(state, attempts, bodies)
    ensures Ledgered(Runs(state, attempts, bodies), origin, after, bodies) && entries <= after
    decreases |attempts|
  {
    hide Ledgered, RunOnce, Release, Reads;
    after := entries;
    if attempts != [] {
      var front, last := attempts[..|attempts| - 1], attempts[|attempts| - 1];
      assert forall k | 0 <= k <= |front| :: front[..k] == attempts[..k];
      var before := LedgerMatchesSchema(state, origin, entries, front, bodies);
      assert Reads(Runs(state, attempts[..|attempts| - 1], bodies).ledger, last.rows);
      after := RunExtendsOrRefuses(Runs(state, front, bodies), origin, before, last, bodies);
    }
  }

  /** While one release is being rolled out, the ledger is always a beginning of it, and only grows. */
  lemma {:induction false} LedgerIsReleasePrefix<S>(state: State<S>, origin: S, n: nat, release: seq<Entry>,
                                                    attempts: seq<Attempt>, bodies: Bodies<S>) returns (m: nat)
    requires n <= |release| && Ledgered(state, origin, release[..n], bodies) && Serialised(state, attempts, bodies)
    requires forall a | a in attempts :: a.release == release
    ensures n <= m <= |release| && Ledgered(Runs(state, attempts, bodies), origin, release[..m], bodies)
    decreases |attempts|
  {
    hide Ledgered, RunOnce, Release, Reads;
    m := n;
    if attempts != [] {
      var front, last := attempts[..|attempts| - 1], attempts[|attempts| - 1];
      assert forall k | 0 <= k <= |front| :: front[..k] == attempts[..k];
      var before := LedgerIsReleasePrefix(state, origin, n, release, front, bodies);
      assert Reads(Runs(state, attempts[..|attempts| - 1], bodies).ledger, last.rows);
      assert last in attempts && release[..before] <= release;
      var after := RunExtendsOrRefuses(Runs(state, front, bodies), origin, release[..before], last, bodies);
      PrefixIsSlice(after, release);
      m := |after|;
    }
  }

  /** However often it is interrupted first, a run that completes reaches the state of an uninterrupted one. */
  lemma RerunReachesUninterrupted<S>(state: State<S>, origin: S, entries: seq<Entry>, attempts: seq<Attempt>,
                                     last: Attempt, whole: Attempt, bodies: Bodies<S>)
    requires Ledgered(state, origin, entries, bodies) && Serialised(state, attempts + [last], bodies)
    requires whole.release == last.release && Release(whole.release) && Reads(state.ledger, whole.rows)
    requires RunOnce(state, whole.release, whole.rows, whole.statements, bodies).1 == Completed
    requires RunOnce(Runs(state, attempts, bodies), last.release, last.rows, last.statements, bodies).1 == Completed
    ensures Runs(state, attempts + [last], bodies) ==
              RunOnce(state, whole.release, whole.rows, whole.statements, bodies).0
  {
    var all := attempts + [last];
    assert all[..|attempts|] == attempts;
    assert forall k | 0 <= k <= |attempts| :: attempts[..k] == all[..k];
    var before := LedgerMatchesSchema(state, origin, entries, attempts, bodies);
    assert Reads(Runs(state, all[..|attempts|], bodies).ledger, all[|attempts|].rows);
    var after := RunExtendsOrRefuses(Runs(state, attempts, bodies), origin, before, last, bodies);
    var direct := RunExtendsOrRefuses(state, origin, entries, whole, bodies);
  }

  // ---------------------------------------------------------------- what a session gets done

  /** The state after so many entries carried out whole, if their bodies run and none is ledgered yet. */
  function Carry<S>(state: State<S>, release: seq<Entry>, n: nat, k: nat, bodies: Bodies<S>): Option<State<S>>
    decreases k
  {
    if k == 0 then Some(state)
    else if n >= |release| || release[n].id in state.ledger then None
    else
      match bodies(release[n])(state.schema)
      case None => None
      case Some(schema) =>
        Carry(State(state.ledger[release[n].id := release[n].checksum], schema), release, n + 1, k - 1, bodies)
  }

  /** Each entry takes four statements; a session lost among them leaves the entries it finished, and no part of one. */
  lemma {:induction false} SessionsCommitWholeEntries<S>(state: State<S>, release: seq<Entry>, n: nat, statements: nat,
                                                         bodies: Bodies<S>)
    requires n <= |release| && Carry(state, release, n, |release| - n, bodies).Some?
    ensures var k := if statements / 4 < |release| - n then statements / 4 else |release| - n;
            && Carry(state, release, n, k, bodies).Some?
            && Applied(state, release, n, statements, bodies) ==
                 (Carry(state, release, n, k, bodies).value,
                  if 4 * (|release| - n) <= statements then Completed else Lost)
    decreases |release| - n
  {
    if n < |release| && statements >= 4 {
      var schema := bodies(release[n])(state.schema).value;
      SessionsCommitWholeEntries(State(state.ledger[release[n].id := release[n].checksum], schema), release, n + 1,
                                 statements - 4, bodies);
    }
  }

  /** A refusal says what is wrong: rows the release lacks, another migration in a place, or one changed since. */
  lemma RefusalsTell<S>(state: State<S>, release: seq<Entry>, rows: seq<Entry>, statements: nat, bodies: Bodies<S>)
    ensures var (after, ending) := RunOnce(state, release, rows, statements, bodies);
            && (ending == Failed(MissingFromRelease) <==> |rows| > |release|)
            && (forall i: nat :: ending == Failed(NotAPrefix(i)) ==>
                  i < |rows| <= |release| && rows[..i] == release[..i] && rows[i].id != release[i].id)
            && (forall i: nat :: ending == Failed(ChangedAfterApplied(i)) ==>
                  && i < |rows| <= |release| && rows[..i] == release[..i]
                  && rows[i].id == release[i].id && rows[i].checksum != release[i].checksum)
  {
    if |rows| <= |release| && FirstDifference(release, rows) == |rows| {
      AppliedTells(state, release, |rows|, statements, bodies);
    }
  }

  lemma {:induction false} AppliedTells<S>(state: State<S>, release: seq<Entry>, n: nat, statements: nat,
                                           bodies: Bodies<S>)
    ensures var ending := Applied(state, release, n, statements, bodies).1;
            ending.Failed? ==> ending.fault.BodyFailed?
    decreases |release| - n
  {
    if n < |release| && statements >= STATEMENTS && bodies(release[n])(state.schema).Some? {
      AppliedTells(State(state.ledger[release[n].id := release[n].checksum], bodies(release[n])(state.schema).value),
                   release, n + 1, statements - STATEMENTS, bodies);
    }
  }

  /** A failure is reported exactly when the session lives to the statement that fails; before that it is just lost. */
  lemma FailuresAreSeen<S>(state: State<S>, release: seq<Entry>, n: nat, statements: nat, bodies: Bodies<S>)
    requires n < |release|
    ensures bodies(release[n])(state.schema).None? ==>
              Applied(state, release, n, statements, bodies) ==
              (state, if statements >= 2 then Failed(BodyFailed(n)) else Lost)
    ensures bodies(release[n])(state.schema).Some? && release[n].id in state.ledger ==>
              Applied(state, release, n, statements, bodies) ==
              (state, if statements >= 3 then Failed(BodyFailed(n)) else Lost)
    ensures statements < 4 ==> Applied(state, release, n, statements, bodies).0 == state
  {
  }
}
