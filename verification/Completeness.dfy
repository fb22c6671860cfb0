/**
 * The completeness audit of an id range: sharding it into windows, finding the ids a walk did not return,
 * probing them, classifying each as deleted or missed, and checking that the windows tile the range.
 */
module Completeness {
  import opened Wrappers

  const MAX_IN_VALUES := 100

  datatype IdWindow = IdWindow(from: int, to: int)

  datatype Observation = Observation(window: IdWindow, observedIds: seq<int>)

  datatype Verdict = Verdict(window: IdWindow, expectedSpan: int, staged: nat, deleted: seq<int>, missed: seq<int>,
                             complete: bool)

  datatype Audit = Audit(windows: seq<Verdict>, totalStaged: nat, totalDeleted: nat, totalMissed: nat, complete: bool)

  datatype ShardError = ShardSizeInvalid

  datatype ProbeError = BatchSizeInvalid

  datatype TileError = Unscanned | WrongStart | WrongEnd | Overlap | Hole

  function Elements<T>(s: seq<T>): set<T> { set x | x in s }

  /** The ids of a closed window, ascending. */
  function Range(low: int, high: int): seq<int>
    decreases high - low
  {
    if high < low then [] else Range(low, high - 1) + [high]
  }

  function Without(ids: seq<int>, seen: set<int>): seq<int> {
    if ids == [] then []
    else if ids[|ids| - 1] in seen then Without(ids[..|ids| - 1], seen)
    else Without(ids[..|ids| - 1], seen) + [ids[|ids| - 1]]
  }

  function Only(ids: seq<int>, kept: set<int>): seq<int> {
    if ids == [] then []
    else if ids[|ids| - 1] in kept then Only(ids[..|ids| - 1], kept) + [ids[|ids| - 1]]
    else Only(ids[..|ids| - 1], kept)
  }

  function Gaps(o: Observation): seq<int> {
    Without(Range(o.window.from, o.window.to), Elements(o.observedIds))
  }

  predicate InWindow(id: int, w: IdWindow) {
    w.from <= id <= w.to
  }

  ghost predicate Distinct(ids: seq<int>) {
    forall i, j | 0 <= i < j < |ids| :: ids[i] != ids[j]
  }

  lemma {:induction false} RangeHolds(low: int, high: int)
    ensures forall id :: id in Range(low, high) <==> low <= id <= high
    ensures |Range(low, high)| == if high < low then 0 else high - low + 1
    ensures Distinct(Range(low, high))
    decreases high - low
  {
    if low <= high {
      RangeHolds(low, high - 1);
      var front := Range(low, high - 1);
      assert forall i | 0 <= i < |front| :: front[i] in front;
    }
  }

  lemma {:induction false} WithoutHolds(ids: seq<int>, seen: set<int>)
    ensures forall id :: id in Without(ids, seen) <==> id in ids && id !in seen
    ensures Distinct(ids) ==> Distinct(Without(ids, seen))
    ensures |Without(ids, seen)| + |Only(ids, seen)| == |ids|
  {
    if ids != [] {
      WithoutHolds(ids[..|ids| - 1], seen);
      assert ids == ids[..|ids| - 1] + [ids[|ids| - 1]];
    }
  }

  lemma {:induction false} OnlyHolds(ids: seq<int>, kept: set<int>)
    ensures forall id :: id in Only(ids, kept) <==> id in ids && id in kept
    ensures Distinct(ids) ==> Distinct(Only(ids, kept))
  {
    if ids != [] {
      OnlyHolds(ids[..|ids| - 1], kept);
      assert ids == ids[..|ids| - 1] + [ids[|ids| - 1]];
    }
  }

  lemma {:induction false} DistinctSize(ids: seq<int>)
    requires Distinct(ids)
    ensures |Elements(ids)| == |ids|
  {
    if ids != [] {
      var front, last := ids[..|ids| - 1], ids[|ids| - 1];
      DistinctSize(front);
      assert Elements(ids) == Elements(front) + {last};
    }
  }

  // ---------------------------------------------------------------- sharding

  function Shards(minId: int, maxId: int, size: int): seq<IdWindow>
    requires size >= 1
    decreases maxId - minId
  {
    if maxId < minId then []
    else [IdWindow(minId, if minId + size - 1 < maxId then minId + size - 1 else maxId)]
         + Shards(minId + size, maxId, size)
  }

  method ShardIdRange(minId: int, maxId: int, idsPerShard: int) returns (shards: Result<seq<IdWindow>, ShardError>)
    ensures shards == if maxId < minId then Ok([])
                      else if idsPerShard < 1 then Err(ShardSizeInvalid)
                      else Ok(Shards(minId, maxId, idsPerShard))
  {
    if maxId < minId {
      return Ok([]);
    }
    if idsPerShard < 1 {
      return Err(ShardSizeInvalid);
    }
    var windows: seq<IdWindow> := [];
    var from := minId;
    while from <= maxId
      invariant windows + Shards(from, maxId, idsPerShard) == Shards(minId, maxId, idsPerShard)
      decreases maxId - from
    {
      assert Shards(from, maxId, idsPerShard)[1..] == Shards(from + idsPerShard, maxId, idsPerShard);
      var to := if from + idsPerShard - 1 < maxId then from + idsPerShard - 1 else maxId;
      windows := windows + [IdWindow(from, to)];
      from := from + idsPerShard;
    }
    assert windows + [] == windows;
    return Ok(windows);
  }

  // ---------------------------------------------------------------- gaps and probes

  method GapIds(o: Observation) returns (gaps: seq<int>)
    ensures gaps == Gaps(o)
    ensures forall id :: id in gaps <==> InWindow(id, o.window) && id !in o.observedIds
    ensures Distinct(gaps)
  {
    gaps := [];
    var seen := Elements(o.observedIds);
    if o.window.to < o.window.from {
      return;
    }
    var id := o.window.from;
    while id <= o.window.to
      invariant o.window.from <= id <= o.window.to + 1
      invariant gaps == Without(Range(o.window.from, id - 1), seen)
    {
      assert Range(o.window.from, id)[..|Range(o.window.from, id)| - 1] == Range(o.window.from, id - 1);
      if id !in seen {
        gaps := gaps + [id];
      }
      id := id + 1;
    }
    GapsHold(o);
  }

  function Flatten(batches: seq<seq<int>>): seq<int> {
    if batches == [] then [] else Flatten(batches[..|batches| - 1]) + batches[|batches| - 1]
  }

  function Batches(ids: seq<int>, size: int): seq<seq<int>>
    requires size >= 1
  {
    if ids == [] then []
    else if |ids| <= size then [ids]
    else [ids[..size]] + Batches(ids[size..], size)
  }

  method BuildGapProbes(ids: seq<int>, batchSize: int) returns (probes: Result<seq<seq<int>>, ProbeError>)
    ensures probes == if 1 <= batchSize <= 100 then Ok(Batches(ids, batchSize)) else Err(BatchSizeInvalid)
  {
    if !(1 <= batchSize <= MAX_IN_VALUES) {
      return Err(BatchSizeInvalid);
    }
    var batches: seq<seq<int>> := [];
    var index := 0;
    while index < |ids|
      invariant 0 <= index
      invariant if index < |ids| then batches + Batches(ids[index..], batchSize) == Batches(ids, batchSize)
                else batches == Batches(ids, batchSize)
      decreases |ids| - index
    {
      var end := if index + batchSize < |ids| then index + batchSize else |ids|;
      batches := batches + [ids[index..end]];
      if index + batchSize < |ids| {
        assert ids[index..][batchSize..] == ids[index + batchSize..];
        assert ids[index..][..batchSize] == ids[index..end];
      } else {
        assert ids[index..end] == ids[index..];
      }
      index := index + batchSize;
    }
    assert ids[0..] == ids;
    return Ok(batches);
  }

  lemma {:induction false} FlattenPrepends(first: seq<int>, rest: seq<seq<int>>)
    ensures Flatten([first] + rest) == first + Flatten(rest)
  {
    if rest == [] {
      assert Flatten([first][..0]) == [];
    } else {
      var n := |rest| - 1;
      assert ([first] + rest)[..|rest|] == [first] + rest[..n];
      FlattenPrepends(first, rest[..n]);
    }
  }

  predicate FullButLast(batches: seq<seq<int>>, size: int) {
    forall k | 0 <= k < |batches| :: 1 <= |batches[k]| <= size && (k + 1 < |batches| ==> |batches[k]| == size)
  }

  lemma FullPrepends(first: seq<int>, rest: seq<seq<int>>, size: int)
    requires FullButLast(rest, size) && |first| == size >= 1
    ensures FullButLast([first] + rest, size)
  {
  }

  /** Every gap is probed exactly once, in order, in full batches but for the last, none empty or over the limit. */
  lemma {:induction false} ProbesCoverGapsOnce(ids: seq<int>, size: int)
    requires size >= 1
    ensures Flatten(Batches(ids, size)) == ids
    ensures FullButLast(Batches(ids, size), size)
  {
    hide FullButLast, Flatten;
    if ids == [] {
      NoBatch(size);
    } else if |ids| <= size {
      OneBatch(ids, size);
    } else {
      ProbesCoverGapsOnce(ids[size..], size);
      FlattenPrepends(ids[..size], Batches(ids[size..], size));
      FullPrepends(ids[..size], Batches(ids[size..], size), size);
      assert ids == ids[..size] + ids[size..];
    }
  }

  lemma NoBatch(size: int)
    ensures Flatten([]) == [] && FullButLast([], size)
  {
  }

  lemma OneBatch(ids: seq<int>, size: int)
    requires 1 <= |ids| <= size
    ensures Flatten([ids]) == ids && FullButLast([ids], size)
  {
    assert [ids][..0] == [];
  }

  // ---------------------------------------------------------------- classification

  /**
   * Every id of the window the walk did not return is missed if a direct fetch resolved it and deleted otherwise, each
   * listed once; the window is complete exactly when none was missed, and a walk that stayed inside is accounted for.
   */
  method ClassifyWindow(o: Observation, resolvedByProbe: seq<int>) returns (v: Verdict)
    ensures v.window == o.window && v.staged == |Elements(o.observedIds)|
    ensures forall id :: id in v.missed <==> InWindow(id, o.window) && id !in o.observedIds && id in resolvedByProbe
    ensures forall id :: id in v.deleted <==> InWindow(id, o.window) && id !in o.observedIds && id !in resolvedByProbe
    ensures Distinct(v.missed) && Distinct(v.deleted)
    ensures v.complete <==> forall id | InWindow(id, o.window) && id in resolvedByProbe :: id in o.observedIds
    ensures WalkInside(o) && o.window.from <= o.window.to ==>
              v.staged + |v.deleted| + |v.missed| == v.expectedSpan == o.window.to - o.window.from + 1
    ensures o.window.to < o.window.from ==> v.expectedSpan == 0
    ensures v == Classify(o, Elements(resolvedByProbe))
  {
    Classified(o, Elements(resolvedByProbe));
    hide Gaps, Distinct, Only, Without;
    var gaps := GapIds(o);
    var observed, resolved := Elements(o.observedIds), Elements(resolvedByProbe);
    var missed, deleted := Only(gaps, resolved), Without(gaps, resolved);
    v := Verdict(o.window, if o.window.to - o.window.from + 1 < 0 then 0 else o.window.to - o.window.from + 1,
                 |observed|, deleted, missed, |missed| == 0);
  }

  function Classify(o: Observation, resolved: set<int>): Verdict {
    var missed := Only(Gaps(o), resolved);
    Verdict(o.window, if o.window.to - o.window.from + 1 < 0 then 0 else o.window.to - o.window.from + 1,
            |Elements(o.observedIds)|, Without(Gaps(o), resolved), missed, missed == [])
  }

  lemma Classified(o: Observation, resolved: set<int>)
    ensures var v := Classify(o, resolved);
            && (forall id :: id in v.missed <==> InWindow(id, o.window) && id !in o.observedIds && id in resolved)
            && (forall id :: id in v.deleted <==> InWindow(id, o.window) && id !in o.observedIds && id !in resolved)
            && Distinct(v.missed) && Distinct(v.deleted)
            && (v.complete <==> forall id | InWindow(id, o.window) && id in resolved :: id in o.observedIds)
            && (WalkInside(o) && o.window.from <= o.window.to ==>
                  v.staged + |v.deleted| + |v.missed| == v.expectedSpan == o.window.to - o.window.from + 1)
            && (o.window.to < o.window.from ==> v.expectedSpan == 0)
  {
    var v := Classify(o, resolved);
    GapsHold(o);
    WithoutHolds(Gaps(o), resolved);
    OnlyHolds(Gaps(o), resolved);
    if WalkInside(o) && o.window.from <= o.window.to {
      WindowIsPartitioned(o, resolved);
    }
    hide Gaps, Only, Without, Elements, Distinct;
    if v.missed != [] {
      assert v.missed[0] in v.missed;
    }
  }

  function SumStaged(vs: seq<Verdict>): nat {
    if vs == [] then 0 else SumStaged(vs[..|vs| - 1]) + vs[|vs| - 1].staged
  }

  function SumDeleted(vs: seq<Verdict>): nat {
    if vs == [] then 0 else SumDeleted(vs[..|vs| - 1]) + |vs[|vs| - 1].deleted|
  }

  function SumMissed(vs: seq<Verdict>): nat {
    if vs == [] then 0 else SumMissed(vs[..|vs| - 1]) + |vs[|vs| - 1].missed|
  }

  function AuditResource(vs: seq<Verdict>): Audit {
    Audit(vs, SumStaged(vs), SumDeleted(vs), SumMissed(vs), SumMissed(vs) == 0)
  }

  predicate WalkInside(o: Observation) {
    forall id | id in o.observedIds :: InWindow(id, o.window)
  }

  lemma GapsHold(o: Observation)
    ensures forall id :: id in Gaps(o) <==> InWindow(id, o.window) && id !in o.observedIds
    ensures Distinct(Gaps(o))
  {
    RangeHolds(o.window.from, o.window.to);
    WithoutHolds(Range(o.window.from, o.window.to), Elements(o.observedIds));
  }

  lemma StagedAndGapsFillWindow(o: Observation)
    requires WalkInside(o) && o.window.from <= o.window.to
    ensures |Elements(o.observedIds)| + |Gaps(o)| == o.window.to - o.window.from + 1
  {
    var range, seen := Range(o.window.from, o.window.to), Elements(o.observedIds);
    RangeHolds(o.window.from, o.window.to);
    WithoutHolds(range, seen);
    OnlyHolds(range, seen);
    DistinctSize(Only(range, seen));
    assert Elements(Only(range, seen)) == seen;
  }

  /** Every id of the window is staged, deleted or missed, and in exactly one of the three. */
  lemma WindowIsPartitioned(o: Observation, resolved: set<int>)
    requires WalkInside(o) && o.window.from <= o.window.to
    ensures var v := Classify(o, resolved);
            && v.staged + |v.deleted| + |v.missed| == v.expectedSpan == o.window.to - o.window.from + 1
            && (forall id :: id in v.missed <==> InWindow(id, o.window) && id !in o.observedIds && id in resolved)
            && (forall id :: id in v.deleted <==> InWindow(id, o.window) && id !in o.observedIds && id !in resolved)
  {
    GapsHold(o);
    StagedAndGapsFillWindow(o);
    hide Gaps, Only, Without, Elements, Distinct;
    WithoutHolds(Gaps(o), resolved);
    OnlyHolds(Gaps(o), resolved);
  }

  lemma {:induction false} NothingMissed(vs: seq<Verdict>)
    ensures SumMissed(vs) == 0 <==> forall k | 0 <= k < |vs| :: vs[k].missed == []
  {
    if vs != [] {
      NothingMissed(vs[..|vs| - 1]);
      assert forall k | 0 <= k < |vs| - 1 :: vs[..|vs| - 1][k] == vs[k];
    }
  }

  // ---------------------------------------------------------------- tiling

  predicate SortedByFrom(ws: seq<IdWindow>) {
    forall i, j | 0 <= i < j < |ws| :: ws[i].from <= ws[j].from
  }

  /** A stable sort by `from`: each window goes behind every earlier one that does not start later. */
  function InsertWindow(ws: seq<IdWindow>, w: IdWindow): seq<IdWindow> {
    if ws == [] then [w]
    else if ws[|ws| - 1].from <= w.from then ws + [w]
    else InsertWindow(ws[..|ws| - 1], w) + [ws[|ws| - 1]]
  }

  function SortWindows(ws: seq<IdWindow>): seq<IdWindow> {
    if ws == [] then [] else InsertWindow(SortWindows(ws[..|ws| - 1]), ws[|ws| - 1])
  }

  lemma {:induction false} InsertSorts(ws: seq<IdWindow>, w: IdWindow)
    requires SortedByFrom(ws)
    ensures SortedByFrom(InsertWindow(ws, w))
    ensures forall x :: x in InsertWindow(ws, w) <==> x in ws || x == w
    ensures |InsertWindow(ws, w)| == |ws| + 1
  {
    if ws != [] && ws[|ws| - 1].from > w.from {
      var front, last := ws[..|ws| - 1], ws[|ws| - 1];
      assert ws == front + [last];
      InsertSorts(front, w);
      var r := InsertWindow(front, w);
      forall i | 0 <= i < |r| ensures r[i].from <= last.from {
        assert r[i] in r;
      }
    }
  }

  lemma {:induction false} SortSorts(ws: seq<IdWindow>)
    ensures SortedByFrom(SortWindows(ws))
    ensures forall x :: x in SortWindows(ws) <==> x in ws
    ensures |SortWindows(ws)| == |ws|
  {
    if ws != [] {
      assert ws == ws[..|ws| - 1] + [ws[|ws| - 1]];
      SortSorts(ws[..|ws| - 1]);
      InsertSorts(SortWindows(ws[..|ws| - 1]), ws[|ws| - 1]);
    }
  }

  predicate Adjoining(sorted: seq<IdWindow>) {
    forall k | 1 <= k < |sorted| :: sorted[k].from == sorted[k - 1].to + 1
  }

  predicate Tiles(sorted: seq<IdWindow>, minId: int, maxId: int) {
    if sorted == [] then maxId < minId
    else sorted[0].from == minId && sorted[|sorted| - 1].to == maxId && Adjoining(sorted)
  }

  method AssertWindowsTile(windows: seq<IdWindow>, minId: int, maxId: int) returns (r: Result<(), TileError>)
    ensures r.Ok? <==> Tiles(SortWindows(windows), minId, maxId)
  {
    if |windows| == 0 {
      if maxId >= minId {
        return Err(Unscanned);
      }
      return Ok(());
    }
    var sorted := SortWindows(windows);
    SortSorts(windows);
    if sorted[0].from != minId {
      return Err(WrongStart);
    }
    if sorted[|sorted| - 1].to != maxId {
      return Err(WrongEnd);
    }
    var index := 1;
    while index < |sorted|
      invariant 1 <= index <= |sorted|
      invariant forall k | 1 <= k < index :: sorted[k].from == sorted[k - 1].to + 1
    {
      var previous, current := sorted[index - 1], sorted[index];
      if current.from <= previous.to {
        return Err(Overlap);
      }
      if current.from != previous.to + 1 {
        return Err(Hole);
      }
      index := index + 1;
    }
    return Ok(());
  }

  // ---------------------------------------------------------------- referential closure

  ghost predicate DistinctTexts(texts: seq<string>) {
    forall i, j | 0 <= i < j < |texts| :: texts[i] != texts[j]
  }

  /** The referenced keys that no parent carries, each once; "" and "0" mean no reference. */
  method FindOrphans(childKeys: seq<string>, parentKeys: seq<string>) returns (orphans: seq<string>)
    ensures forall key :: key in orphans <==> key in childKeys && key != "" && key != "0" && key !in parentKeys
    ensures DistinctTexts(orphans)
  {
    var parents := Elements(parentKeys);
    orphans := [];
    for i := 0 to |childKeys|
      invariant forall key :: key in orphans <==> key in childKeys[..i] && key != "" && key != "0" && key !in parentKeys
      invariant DistinctTexts(orphans)
    {
      var text := childKeys[i];
      if |text| > 0 && text != "0" && text !in parents && text !in orphans {
        orphans := orphans + [text];
      }
    }
    assert childKeys[..|childKeys|] == childKeys;
  }
}
