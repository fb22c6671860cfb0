/** What the audit as a whole promises, from sharding to the final status. */
module CompletenessProofs {
  import opened Completeness

  /** How many windows of the list hold the id. */
  function Holders(ws: seq<IdWindow>, id: int): nat {
    if ws == [] then 0 else Holders(ws[..|ws| - 1], id) + if InWindow(id, ws[|ws| - 1]) then 1 else 0
  }

  ghost predicate NonEmptyWindows(ws: seq<IdWindow>) {
    forall w | w in ws :: w.from <= w.to
  }

  /** Each id of the range lies in exactly one window, and no window reaches outside the range. */
  ghost predicate ExactCover(ws: seq<IdWindow>, minId: int, maxId: int) {
    && (forall id | minId <= id <= maxId :: Holders(ws, id) == 1)
    && (forall w | w in ws :: minId <= w.from && w.to <= maxId)
  }

  // ---------------------------------------------------------------- the tiling check

  lemma {:induction false} InsertKeepsHolders(ws: seq<IdWindow>, w: IdWindow, id: int)
    ensures Holders(InsertWindow(ws, w), id) == Holders(ws, id) + if InWindow(id, w) then 1 else 0
  {
    if ws == [] {
      assert InsertWindow(ws, w)[..0] == [];
    } else if ws[|ws| - 1].from <= w.from {
      assert (ws + [w])[..|ws|] == ws;
    } else {
      var front := ws[..|ws| - 1];
      InsertKeepsHolders(front, w, id);
      assert InsertWindow(ws, w)[..|InsertWindow(front, w)|] == InsertWindow(front, w);
    }
  }

  lemma {:induction false} SortKeepsHolders(ws: seq<IdWindow>, id: int)
    ensures Holders(SortWindows(ws), id) == Holders(ws, id)
  {
    if ws != [] {
      SortKeepsHolders(ws[..|ws| - 1], id);
      InsertKeepsHolders(SortWindows(ws[..|ws| - 1]), ws[|ws| - 1], id);
    }
  }

  lemma {:induction false} NoHolder(ws: seq<IdWindow>, id: int)
    requires forall w | w in ws :: !InWindow(id, w)
    ensures Holders(ws, id) == 0
  {
    if ws != [] {
      assert ws[|ws| - 1] in ws;
      NoHolder(ws[..|ws| - 1], id);
    }
  }

  lemma {:induction false} TwoHolders(ws: seq<IdWindow>, id: int, i: nat, j: nat)
    requires i < j < |ws| && InWindow(id, ws[i]) && InWindow(id, ws[j])
    ensures Holders(ws, id) >= 2
  {
    var front := ws[..|ws| - 1];
    if j < |front| {
      TwoHolders(front, id, i, j);
    } else {
      OneHolder(front, id, i);
    }
  }

  lemma {:induction false} OneHolder(ws: seq<IdWindow>, id: int, i: nat)
    requires i < |ws| && InWindow(id, ws[i])
    ensures Holders(ws, id) >= 1
  {
    if i < |ws| - 1 {
      OneHolder(ws[..|ws| - 1], id, i);
    }
  }

  lemma FrontAdjoins(s: seq<IdWindow>)
    requires |s| > 1 && Adjoining(s) && NonEmptyWindows(s)
    ensures Adjoining(s[..|s| - 1]) && NonEmptyWindows(s[..|s| - 1])
    ensures s[..|s| - 1][|s| - 2].to + 1 == s[|s| - 1].from <= s[|s| - 1].to
  {
    var front := s[..|s| - 1];
    forall k | 1 <= k < |front| ensures front[k].from == front[k - 1].to + 1 {
      assert s[k].from == s[k - 1].to + 1;
    }
    assert forall w | w in front :: w in s;
    assert s[|s| - 1] in s;
  }

  lemma {:induction false} ChainBounds(s: seq<IdWindow>)
    requires s != [] && Adjoining(s) && NonEmptyWindows(s)
    ensures forall w | w in s :: s[0].from <= w.from && w.to <= s[|s| - 1].to
    ensures SortedByFrom(s)
  {
    hide Adjoining;
    if |s| > 1 {
      var front := s[..|s| - 1];
      FrontAdjoins(s);
      ChainBounds(front);
      assert s == front + [s[|s| - 1]];
      assert forall i | 0 <= i < |front| :: front[i] in front;
      assert forall w | w in front :: w.from <= w.to;
      assert front[0] in front;
    } else {
      assert s[0] in s;
    }
  }

  /** An adjoining chain of windows holds each id between its ends once and no other id. */
  lemma {:induction false} ChainHoldsOnce(s: seq<IdWindow>, id: int)
    requires s != [] && Adjoining(s) && NonEmptyWindows(s)
    ensures Holders(s, id) == if s[0].from <= id <= s[|s| - 1].to then 1 else 0
    ensures s[0].from <= s[|s| - 1].to
  {
    assert s[|s| - 1] in s;
    if |s| == 1 {
      assert Holders(s[..0], id) == 0;
    } else {
      FrontAdjoins(s);
      ChainHoldsOnce(s[..|s| - 1], id);
    }
  }

  lemma TilesCover(s: seq<IdWindow>, minId: int, maxId: int)
    requires NonEmptyWindows(s) && Tiles(s, minId, maxId)
    ensures ExactCover(s, minId, maxId)
  {
    if s != [] {
      forall id | minId <= id <= maxId ensures Holders(s, id) == 1 {
        ChainHoldsOnce(s, id);
      }
      ChainBounds(s);
    }
  }

  lemma SortedCoverIsDisjoint(s: seq<IdWindow>, minId: int, maxId: int, i: nat, j: nat)
    requires NonEmptyWindows(s) && SortedByFrom(s) && ExactCover(s, minId, maxId) && i < j < |s|
    ensures s[i].to < s[j].from
  {
    assert s[i] in s && s[j] in s;
    if s[j].from <= s[i].to {
      TwoHolders(s, s[j].from, i, j);
    }
  }

  lemma SortedCoverAdjoins(s: seq<IdWindow>, minId: int, maxId: int, k: nat)
    requires NonEmptyWindows(s) && SortedByFrom(s) && ExactCover(s, minId, maxId) && 1 <= k < |s|
    ensures s[k].from == s[k - 1].to + 1
  {
    assert s[k - 1] in s && s[k] in s;
    SortedCoverIsDisjoint(s, minId, maxId, k - 1, k);
    var id := s[k - 1].to + 1;
    if id < s[k].from {
      forall w | w in s ensures !InWindow(id, w) {
        var m :| 0 <= m < |s| && s[m] == w;
        if m < k - 1 {
          SortedCoverIsDisjoint(s, minId, maxId, m, k - 1);
        }
      }
      NoHolder(s, id);
    }
  }

  lemma CoverTiles(s: seq<IdWindow>, minId: int, maxId: int)
    requires NonEmptyWindows(s) && SortedByFrom(s) && ExactCover(s, minId, maxId)
    ensures Tiles(s, minId, maxId)
  {
    if s == [] {
      NoHolder(s, minId);
    } else {
      var last := |s| - 1;
      assert s[0] in s && s[last] in s;
      forall k | 1 <= k < |s| ensures s[k].from == s[k - 1].to + 1 {
        SortedCoverAdjoins(s, minId, maxId, k);
      }
      ChainHoldsOnce(s, minId);
      ChainHoldsOnce(s, maxId);
    }
  }

  /**
   * The check accepts a list of windows, given in any order, exactly when each id of the range lies in exactly
   * one of them and none reaches outside.
   */
  lemma TileCheckIsExact(windows: seq<IdWindow>, minId: int, maxId: int)
    requires NonEmptyWindows(windows)
    ensures Tiles(SortWindows(windows), minId, maxId) <==> ExactCover(windows, minId, maxId)
  {
    var s := SortWindows(windows);
    SortSorts(windows);
    forall id ensures Holders(s, id) == Holders(windows, id) {
      SortKeepsHolders(windows, id);
    }
    if Tiles(s, minId, maxId) {
      TilesCover(s, minId, maxId);
    }
    if ExactCover(windows, minId, maxId) {
      assert ExactCover(s, minId, maxId);
      CoverTiles(s, minId, maxId);
    }
  }

  /** Empty at worst, when nothing is inverted by more than one. */
  predicate AlmostOrdered(ws: seq<IdWindow>) {
    forall w | w in ws :: w.from <= w.to + 1
  }

  lemma AlmostFront(s: seq<IdWindow>)
    requires |s| > 1 && Adjoining(s) && AlmostOrdered(s)
    ensures var front := s[..|s| - 1];
            Adjoining(front) && AlmostOrdered(front) && front[|s| - 2].to + 1 == s[|s| - 1].from <= s[|s| - 1].to + 1
  {
    var m := |s| - 1;
    assert s[m].from == s[m - 1].to + 1 && s[m] in s;
    assert forall k | 0 <= k < m :: s[..m][k] == s[k];
  }

  lemma {:induction false} AlmostChainBounds(s: seq<IdWindow>)
    requires s != [] && Adjoining(s) && AlmostOrdered(s)
    ensures s[0].from <= s[|s| - 1].to + 1
    ensures forall w | w in s :: s[0].from <= w.from && w.to <= s[|s| - 1].to
  {
    hide Adjoining, AlmostOrdered;
    assert s == s[..|s| - 1] + [s[|s| - 1]];
    if |s| > 1 {
      AlmostFront(s);
      AlmostChainBounds(s[..|s| - 1]);
    } else {
      AlmostSingle(s);
    }
  }

  lemma AlmostSingle(s: seq<IdWindow>)
    requires |s| == 1 && AlmostOrdered(s)
    ensures s[0].from <= s[0].to + 1
  {
    assert s[0] in s;
  }

  lemma {:induction false} AlmostChainHoldsOnce(s: seq<IdWindow>, id: int)
    requires s != [] && Adjoining(s) && AlmostOrdered(s)
    ensures Holders(s, id) == if s[0].from <= id <= s[|s| - 1].to then 1 else 0
  {
    hide Adjoining, AlmostOrdered;
    if |s| > 1 {
      AlmostFront(s);
      AlmostChainHoldsOnce(s[..|s| - 1], id);
      AlmostChainBounds(s[..|s| - 1]);
    } else {
      assert s[..0] == [];
    }
  }

  /** In a list the check accepts, every window but the last ends no earlier than just before it begins. */
  lemma AcceptedAlmostOrdered(s: seq<IdWindow>, minId: int, maxId: int)
    requires SortedByFrom(s) && Tiles(s, minId, maxId) && s != [] && s[|s| - 1].from <= s[|s| - 1].to + 1
    ensures AlmostOrdered(s)
  {
    forall w | w in s
      ensures w.from <= w.to + 1
    {
      var k :| 0 <= k < |s| && s[k] == w;
      if k + 1 < |s| {
        var m := k + 1;
        assert s[m].from == s[m - 1].to + 1;
        assert s[k].from <= s[m].from;
      }
    }
  }

  /** A first window inverted by more than one, alone, is an empty range the check is right about. */
  lemma LoneWindowCovers(s: seq<IdWindow>, minId: int, maxId: int)
    requires |s| == 1 && Tiles(s, minId, maxId)
    ensures ExactCover(s, minId, maxId)
  {
    forall id | minId <= id <= maxId
      ensures Holders(s, id) == 1
    {
      assert s[..0] == [];
    }
  }

  /**
   * Exactly when the check is wrong about what it accepts, inverted windows included: when there are several and the
   * last to begin ends more than one before it begins, so that the one before it reaches outside.
   */
  lemma WronglyAcceptedExactly(windows: seq<IdWindow>, minId: int, maxId: int)
    requires Tiles(SortWindows(windows), minId, maxId)
    ensures var s := SortWindows(windows);
            !ExactCover(windows, minId, maxId) <==> |s| > 1 && s[|s| - 1].to < s[|s| - 1].from - 1
  {
    var s := SortWindows(windows);
    SortSorts(windows);
    SortKeepsCover(windows, minId, maxId);
    if |s| > 1 && s[|s| - 1].to < s[|s| - 1].from - 1 {
      var m := |s| - 1;
      assert s[m].from == s[m - 1].to + 1;
      assert s[m - 1] in s;
    } else if |s| == 1 {
      LoneWindowCovers(s, minId, maxId);
    } else if s != [] {
      AcceptedAlmostOrdered(s, minId, maxId);
      forall id
        ensures Holders(s, id) == if minId <= id <= maxId then 1 else 0
      {
        AlmostChainHoldsOnce(s, id);
      }
      AlmostChainBounds(s);
    }
  }

  lemma SortKeepsCover(windows: seq<IdWindow>, minId: int, maxId: int)
    ensures ExactCover(SortWindows(windows), minId, maxId) <==> ExactCover(windows, minId, maxId)
  {
    hide SortWindows, Holders;
    SortSorts(windows);
    forall id
      ensures Holders(SortWindows(windows), id) == Holders(windows, id)
    {
      SortKeepsHolders(windows, id);
    }
  }

  lemma {:induction false} ShardsChain(minId: int, maxId: int, size: int)
    requires size >= 1 && minId <= maxId
    ensures var s := Shards(minId, maxId, size);
            && s != [] && s[0].from == minId && s[|s| - 1].to == maxId
            && Adjoining(s)
            && forall w | w in s :: w.from <= w.to < w.from + size
    decreases maxId - minId
  {
    var s := Shards(minId, maxId, size);
    if minId + size <= maxId {
      var rest := Shards(minId + size, maxId, size);
      ShardsChain(minId + size, maxId, size);
      assert s == [s[0]] + rest;
      forall k | 1 <= k < |s| ensures s[k].from == s[k - 1].to + 1 {
        assert s[k] == rest[k - 1];
        assert k > 1 ==> s[k - 1] == rest[k - 2] && rest[k - 1].from == rest[k - 1 - 1].to + 1;
      }
    } else {
      assert Shards(minId + size, maxId, size) == [];
    }
  }

  lemma {:induction false} SortKeepsSorted(ws: seq<IdWindow>)
    requires SortedByFrom(ws)
    ensures SortWindows(ws) == ws
  {
    if ws != [] {
      var front := ws[..|ws| - 1];
      SortKeepsSorted(front);
      assert ws == front + [ws[|ws| - 1]];
      assert front == [] || front[|front| - 1] == ws[|ws| - 2];
    }
  }

  /** Whatever the shard size, the shards of a range pass the tiling check for that range. */
  lemma ShardsTile(minId: int, maxId: int, size: int)
    requires size >= 1
    ensures Tiles(SortWindows(Shards(minId, maxId, size)), minId, maxId)
    ensures ExactCover(Shards(minId, maxId, size), minId, maxId)
  {
    if minId <= maxId {
      ShardsChain(minId, maxId, size);
      ChainBounds(Shards(minId, maxId, size));
      SortKeepsSorted(Shards(minId, maxId, size));
    }
    TileCheckIsExact(Shards(minId, maxId, size), minId, maxId);
  }

  // ---------------------------------------------------------------- end to end

  /** Verdict k comes from walking shard k and knowing which of its gaps resolve; `existing` is the truth. */
  ghost predicate AuditedShards(minId: int, maxId: int, size: int, observations: seq<Observation>, existing: set<int>,
                                probed: seq<set<int>>)
    requires size >= 1
  {
    && |observations| == |Shards(minId, maxId, size)| == |probed|
    && forall k | 0 <= k < |observations| ::
         && observations[k].window == Shards(minId, maxId, size)[k]
         && WalkInside(observations[k])
         && forall id | id in Gaps(observations[k]) :: id in probed[k] <==> id in existing
  }

  function Verdicts(observations: seq<Observation>, probed: seq<set<int>>): seq<Verdict>
    requires |observations| == |probed|
  {
    if observations == [] then []
    else Verdicts(observations[..|observations| - 1], probed[..|probed| - 1])
         + [Classify(observations[|observations| - 1], probed[|probed| - 1])]
  }

  function SumSpan(ws: seq<IdWindow>): int {
    if ws == [] then 0 else SumSpan(ws[..|ws| - 1]) + (ws[|ws| - 1].to - ws[|ws| - 1].from + 1)
  }

  function Windows(observations: seq<Observation>): seq<IdWindow> {
    if observations == [] then []
    else Windows(observations[..|observations| - 1]) + [observations[|observations| - 1].window]
  }

  lemma {:induction false} WindowsAt(observations: seq<Observation>)
    ensures |Windows(observations)| == |observations|
    ensures forall k | 0 <= k < |observations| :: Windows(observations)[k] == observations[k].window
  {
    if observations != [] {
      WindowsAt(observations[..|observations| - 1]);
    }
  }

  lemma {:induction false} ChainSpan(s: seq<IdWindow>)
    requires s != [] && Adjoining(s) && NonEmptyWindows(s)
    ensures SumSpan(s) == s[|s| - 1].to - s[0].from + 1
  {
    if |s| == 1 {
      assert SumSpan(s[..0]) == 0;
    } else {
      FrontAdjoins(s);
      ChainSpan(s[..|s| - 1]);
    }
  }

  lemma SumsAppend(vs: seq<Verdict>, v: Verdict, ws: seq<IdWindow>, w: IdWindow)
    ensures SumStaged(vs + [v]) == SumStaged(vs) + v.staged
    ensures SumDeleted(vs + [v]) == SumDeleted(vs) + |v.deleted|
    ensures SumMissed(vs + [v]) == SumMissed(vs) + |v.missed|
    ensures SumSpan(ws + [w]) == SumSpan(ws) + (w.to - w.from + 1)
  {
    assert (vs + [v])[..|vs|] == vs;
    assert (ws + [w])[..|ws|] == ws;
  }

  lemma {:induction false} VerdictsAt(observations: seq<Observation>, probed: seq<set<int>>)
    requires |observations| == |probed|
    ensures |Verdicts(observations, probed)| == |observations|
    ensures forall k | 0 <= k < |observations| ::
              Verdicts(observations, probed)[k] == Classify(observations[k], probed[k])
  {
    hide Classify;
    if observations != [] {
      var front := observations[..|observations| - 1];
      VerdictsAt(front, probed[..|probed| - 1]);
      assert forall k | 0 <= k < |front| :: front[k] == observations[k] && probed[..|probed| - 1][k] == probed[k];
    }
  }

  lemma {:induction false} VerdictsAddUp(observations: seq<Observation>, probed: seq<set<int>>)
    requires |observations| == |probed|
    requires forall o | o in observations :: WalkInside(o) && o.window.from <= o.window.to
    ensures var vs := Verdicts(observations, probed);
            SumStaged(vs) + SumDeleted(vs) + SumMissed(vs) == SumSpan(Windows(observations))
  {
    if observations != [] {
      hide Classify, SumStaged, SumDeleted, SumMissed, SumSpan;
      var n := |observations| - 1;
      VerdictsAddUp(observations[..n], probed[..n]);
      assert observations[n] in observations;
      WindowIsPartitioned(observations[n], probed[n]);
      SumsAppend(Verdicts(observations[..n], probed[..n]), Classify(observations[n], probed[n]),
                 Windows(observations[..n]), observations[n].window);
    }
  }

  lemma ObservationsAreShards(minId: int, maxId: int, size: int, observations: seq<Observation>, existing: set<int>,
                              probed: seq<set<int>>)
    requires size >= 1 && minId <= maxId
    requires AuditedShards(minId, maxId, size, observations, existing, probed)
    ensures Windows(observations) == Shards(minId, maxId, size)
    ensures forall o | o in observations :: WalkInside(o) && o.window.from <= o.window.to
  {
    var shards := Shards(minId, maxId, size);
    ShardsChain(minId, maxId, size);
    WindowsAt(observations);
    forall o | o in observations ensures WalkInside(o) && o.window.from <= o.window.to {
      var k :| 0 <= k < |observations| && observations[k] == o;
      assert shards[k] in shards;
    }
  }

  lemma ResolvedAuditAddsUp(minId: int, maxId: int, size: int, observations: seq<Observation>, existing: set<int>,
                            probed: seq<set<int>>)
    requires size >= 1 && minId <= maxId
    requires AuditedShards(minId, maxId, size, observations, existing, probed)
    ensures var audit := AuditResource(Verdicts(observations, probed));
            audit.totalStaged + audit.totalDeleted + audit.totalMissed == maxId - minId + 1
  {
    ShardsChain(minId, maxId, size);
    ObservationsAreShards(minId, maxId, size, observations, existing, probed);
    hide AuditedShards, WalkInside;
    VerdictsAddUp(observations, probed);
    ChainSpan(Shards(minId, maxId, size));
  }

  lemma CompleteWhenResolved(minId: int, maxId: int, size: int, observations: seq<Observation>, existing: set<int>,
                             probed: seq<set<int>>)
    requires size >= 1 && minId <= maxId
    requires AuditedShards(minId, maxId, size, observations, existing, probed)
    ensures AuditResource(Verdicts(observations, probed)).complete <==>
            forall id | id in existing && minId <= id <= maxId :: exists o :: o in observations && id in o.observedIds
  {
    hide Classify, WalkInside, Shards, Gaps;
    var vs := Verdicts(observations, probed);
    VerdictsAt(observations, probed);
    NothingMissed(vs);
    if SumMissed(vs) == 0 {
      forall id | id in existing && minId <= id <= maxId ensures exists o :: o in observations && id in o.observedIds {
        CompleteReturnsExisting(minId, maxId, size, observations, existing, probed, vs, id);
      }
    } else {
      MissedIsNeverReturned(minId, maxId, size, observations, existing, probed, vs);
    }
  }

  lemma ShardOf(minId: int, maxId: int, size: int, id: int) returns (k: nat)
    requires size >= 1 && minId <= id <= maxId
    ensures k < |Shards(minId, maxId, size)| && InWindow(id, Shards(minId, maxId, size)[k])
  {
    var shards := Shards(minId, maxId, size);
    ShardsTile(minId, maxId, size);
    if forall w | w in shards :: !InWindow(id, w) {
      NoHolder(shards, id);
    }
    k :| 0 <= k < |shards| && InWindow(id, shards[k]);
  }

  lemma CompleteReturnsExisting(minId: int, maxId: int, size: int, observations: seq<Observation>, existing: set<int>,
                                probed: seq<set<int>>, vs: seq<Verdict>, id: int)
    requires size >= 1 && minId <= id <= maxId && id in existing
    requires AuditedShards(minId, maxId, size, observations, existing, probed)
    requires |vs| == |observations| &&
               forall k | 0 <= k < |vs| :: vs[k] == Classify(observations[k], probed[k]) && vs[k].missed == []
    ensures exists o :: o in observations && id in o.observedIds
  {
    var k := ShardOf(minId, maxId, size, id);
    GapsHold(observations[k]);
    OnlyHolds(Gaps(observations[k]), probed[k]);
    assert vs[k].missed == [];
    assert id in observations[k].observedIds;
    assert observations[k] in observations;
  }

  lemma OneShardOnly(minId: int, maxId: int, size: int, id: int, k: nat, m: nat)
    requires size >= 1 && minId <= maxId
    requires k < |Shards(minId, maxId, size)| && m < |Shards(minId, maxId, size)|
    requires InWindow(id, Shards(minId, maxId, size)[k]) && InWindow(id, Shards(minId, maxId, size)[m])
    ensures k == m && minId <= id <= maxId
  {
    var shards := Shards(minId, maxId, size);
    ShardsTile(minId, maxId, size);
    assert shards[k] in shards;
    if k < m {
      TwoHolders(shards, id, k, m);
    } else if m < k {
      TwoHolders(shards, id, m, k);
    }
  }

  lemma MissedIsNeverReturned(minId: int, maxId: int, size: int, observations: seq<Observation>, existing: set<int>,
                              probed: seq<set<int>>, vs: seq<Verdict>)
    requires size >= 1 && minId <= maxId
    requires AuditedShards(minId, maxId, size, observations, existing, probed)
    requires |vs| == |observations| && forall k | 0 <= k < |vs| :: vs[k] == Classify(observations[k], probed[k])
    requires exists k :: 0 <= k < |vs| && vs[k].missed != []
    ensures exists id :: id in existing && minId <= id <= maxId && forall o | o in observations :: id !in o.observedIds
  {
    var k :| 0 <= k < |vs| && vs[k].missed != [];
    var id := vs[k].missed[0];
    GapsHold(observations[k]);
    OnlyHolds(Gaps(observations[k]), probed[k]);
    assert id in vs[k].missed;
    OneShardOnly(minId, maxId, size, id, k, k);
    forall o | o in observations ensures id !in o.observedIds {
      var m :| 0 <= m < |observations| && observations[m] == o;
      if id in o.observedIds {
        OneShardOnly(minId, maxId, size, id, k, m);
      }
    }
  }

  // ---------------------------------------------------------------- through the probe batches

  function Union(fetched: seq<set<int>>): set<int> {
    if fetched == [] then {} else Union(fetched[..|fetched| - 1]) + fetched[|fetched| - 1]
  }

  lemma {:induction false} UnionHolds(fetched: seq<set<int>>)
    ensures forall id :: id in Union(fetched) <==> exists b :: 0 <= b < |fetched| && id in fetched[b]
  {
    if fetched != [] {
      var front := fetched[..|fetched| - 1];
      UnionHolds(front);
      forall id
        ensures id in Union(fetched) <==> exists b :: 0 <= b < |fetched| && id in fetched[b]
      {
        if b :| 0 <= b < |front| && id in front[b] {
          assert id in fetched[b];
        }
        if b :| 0 <= b < |fetched| && id in fetched[b] {
          assert b < |front| ==> id in front[b];
        }
      }
    }
  }

  lemma {:induction false} FlattenHolds(batches: seq<seq<int>>)
    ensures forall id :: id in Flatten(batches) <==> exists b :: 0 <= b < |batches| && id in batches[b]
  {
    if batches != [] {
      var front := batches[..|batches| - 1];
      FlattenHolds(front);
      forall id
        ensures id in Flatten(batches) <==> exists b :: 0 <= b < |batches| && id in batches[b]
      {
        if b :| 0 <= b < |front| && id in front[b] {
          assert id in batches[b];
        }
        if b :| 0 <= b < |batches| && id in batches[b] {
          assert b < |front| ==> id in front[b];
        }
      }
    }
  }

  /** One direct fetch for each batch: it returns every existing id asked for, and nothing that does not exist. */
  ghost predicate Truthful(batches: seq<seq<int>>, fetched: seq<set<int>>, existing: set<int>) {
    && |batches| == |fetched|
    && forall b | 0 <= b < |batches| ::
         && (forall id | id in batches[b] && id in existing :: id in fetched[b])
         && (forall id | id in fetched[b] :: id in existing)
  }

  /** The batches together decide every id that was to be probed. */
  lemma BatchesDecideAll(ids: seq<int>, batchSize: int, fetched: seq<set<int>>, existing: set<int>)
    requires batchSize >= 1 && Truthful(Batches(ids, batchSize), fetched, existing)
    ensures forall id | id in ids :: id in Union(fetched) <==> id in existing
  {
    var batches := Batches(ids, batchSize);
    ProbesCoverGapsOnce(ids, batchSize);
    FlattenHolds(batches);
    UnionHolds(fetched);
    hide Flatten, Union, Batches;
    forall id | id in ids
      ensures id in Union(fetched) <==> id in existing
    {
      assert id in Flatten(batches);
      var b :| 0 <= b < |batches| && id in batches[b];
      assert id in existing ==> id in fetched[b];
    }
  }

  /** Every shard walked inside its window, and its gaps fetched directly batch by batch. */
  ghost predicate ProbedShards(minId: int, maxId: int, size: int, batchSize: int, observations: seq<Observation>,
                               existing: set<int>, fetches: seq<seq<set<int>>>)
    requires size >= 1 && batchSize >= 1
  {
    && |observations| == |Shards(minId, maxId, size)| == |fetches|
    && forall k | 0 <= k < |observations| ::
         && observations[k].window == Shards(minId, maxId, size)[k]
         && WalkInside(observations[k])
         && Truthful(Batches(Gaps(observations[k]), batchSize), fetches[k], existing)
  }

  function Resolved(fetches: seq<seq<set<int>>>): seq<set<int>> {
    seq(|fetches|, k requires 0 <= k < |fetches| => Union(fetches[k]))
  }

  lemma ProbingResolves(minId: int, maxId: int, size: int, batchSize: int, observations: seq<Observation>,
                        existing: set<int>, fetches: seq<seq<set<int>>>)
    requires size >= 1 && batchSize >= 1
    requires ProbedShards(minId, maxId, size, batchSize, observations, existing, fetches)
    ensures AuditedShards(minId, maxId, size, observations, existing, Resolved(fetches))
  {
    hide Shards, Gaps, WalkInside, Union, Truthful, Batches;
    forall k | 0 <= k < |observations|
      ensures forall id | id in Gaps(observations[k]) :: id in Resolved(fetches)[k] <==> id in existing
    {
      BatchesDecideAll(Gaps(observations[k]), batchSize, fetches[k], existing);
    }
  }

  /** The audit of a sharded range accounts for every id: staged, deleted and missed add up to the size of the range. */
  lemma AuditAddsUp(minId: int, maxId: int, size: int, batchSize: int, observations: seq<Observation>,
                    existing: set<int>, fetches: seq<seq<set<int>>>)
    requires size >= 1 && batchSize >= 1 && minId <= maxId
    requires ProbedShards(minId, maxId, size, batchSize, observations, existing, fetches)
    ensures var audit := AuditResource(Verdicts(observations, Resolved(fetches)));
            audit.totalStaged + audit.totalDeleted + audit.totalMissed == maxId - minId + 1
  {
    hide ProbedShards, AuditedShards, Resolved;
    ProbingResolves(minId, maxId, size, batchSize, observations, existing, fetches);
    ResolvedAuditAddsUp(minId, maxId, size, observations, existing, Resolved(fetches));
  }

  /** Its status is complete exactly when every id that exists in the range was returned by a walk. */
  lemma CompleteMeansNothingDropped(minId: int, maxId: int, size: int, batchSize: int, observations: seq<Observation>,
                                    existing: set<int>, fetches: seq<seq<set<int>>>)
    requires size >= 1 && batchSize >= 1 && minId <= maxId
    requires ProbedShards(minId, maxId, size, batchSize, observations, existing, fetches)
    ensures AuditResource(Verdicts(observations, Resolved(fetches))).complete <==>
            forall id | id in existing && minId <= id <= maxId :: exists o :: o in observations && id in o.observedIds
  {
    hide AuditedShards, Resolved;
    ProbingResolves(minId, maxId, size, batchSize, observations, existing, fetches);
    CompleteWhenResolved(minId, maxId, size, observations, existing, Resolved(fetches));
  }
}
