/** What the three totals of an audit count. */
module CompletenessCounts {
  import opened Completeness
  import opened CompletenessProofs

  function Sizes(sets: seq<set<int>>): nat {
    if sets == [] then 0 else Sizes(sets[..|sets| - 1]) + |sets[|sets| - 1]|
  }

  ghost predicate Apart(sets: seq<set<int>>) {
    forall i, j | 0 <= i < j < |sets| :: sets[i] !! sets[j]
  }

  lemma {:induction false} DisjointSizes(sets: seq<set<int>>)
    requires Apart(sets)
    ensures Sizes(sets) == |Union(sets)|
  {
    if sets != [] {
      var front, last := sets[..|sets| - 1], sets[|sets| - 1];
      DisjointSizes(front);
      UnionHolds(front);
      assert Union(front) !! last by {
        forall id | id in Union(front)
          ensures id !in last
        {
          var b :| 0 <= b < |front| && id in front[b];
          assert sets[b] !! sets[|sets| - 1];
        }
      }
    }
  }

  datatype Kind = Staged | Deleted | Missed

  /** What one window contributes to a total. */
  function Contribution(o: Observation, v: Verdict, kind: Kind): set<int> {
    match kind
    case Staged => Elements(o.observedIds)
    case Deleted => Elements(v.deleted)
    case Missed => Elements(v.missed)
  }

  function Contributions(observations: seq<Observation>, vs: seq<Verdict>, kind: Kind): seq<set<int>>
    requires |observations| == |vs|
  {
    seq(|vs|, k requires 0 <= k < |vs| => Contribution(observations[k], vs[k], kind))
  }

  function Total(audit: Audit, kind: Kind): nat {
    match kind
    case Staged => audit.totalStaged
    case Deleted => audit.totalDeleted
    case Missed => audit.totalMissed
  }

  lemma VerdictCounts(o: Observation, resolved: set<int>, kind: Kind)
    ensures var v := Classify(o, resolved);
            |Contribution(o, v, kind)| ==
            match kind case Staged => v.staged case Deleted => |v.deleted| case Missed => |v.missed|
  {
    Classified(o, resolved);
    DistinctSize(Classify(o, resolved).missed);
    DistinctSize(Classify(o, resolved).deleted);
  }

  lemma {:induction false} TotalsAreSizes(observations: seq<Observation>, probed: seq<set<int>>, kind: Kind)
    requires |observations| == |probed|
    ensures |Verdicts(observations, probed)| == |observations|
    ensures var vs := Verdicts(observations, probed);
            Total(AuditResource(vs), kind) == Sizes(Contributions(observations, vs, kind))
  {
    VerdictsAt(observations, probed);
    if observations == [] {
    } else {
      var n := |observations| - 1;
      TotalsAreSizes(observations[..n], probed[..n], kind);
      VerdictsAt(observations[..n], probed[..n]);
      VerdictCounts(observations[n], probed[n], kind);
      var front, vs := Verdicts(observations[..n], probed[..n]), Verdicts(observations, probed);
      assert vs == front + [vs[n]];
      hide Classify, Verdicts, Sizes, Contributions;
      TotalAppends(front, vs[n], kind);
      SizesAppend(observations, front, vs[n], kind);
    }
  }

  lemma TotalAppends(front: seq<Verdict>, v: Verdict, kind: Kind)
    ensures Total(AuditResource(front + [v]), kind) == Total(AuditResource(front), kind) +
              match kind case Staged => v.staged case Deleted => |v.deleted| case Missed => |v.missed|
  {
    hide SumStaged, SumDeleted, SumMissed;
    SumsAppend(front, v, [], v.window);
  }

  lemma SizesAppend(observations: seq<Observation>, front: seq<Verdict>, v: Verdict, kind: Kind)
    requires |observations| == |front| + 1
    ensures Sizes(Contributions(observations, front + [v], kind)) ==
              Sizes(Contributions(observations[..|front|], front, kind)) +
                |Contribution(observations[|front|], v, kind)|
  {
    hide Contribution;
    var all := Contributions(observations, front + [v], kind);
    assert all[..|front|] == Contributions(observations[..|front|], front, kind);
  }

  /** An id counts as staged when a walk returned it, as missed when it exists all the same, else as deleted. */
  ghost predicate Counts(id: int, observations: seq<Observation>, existing: set<int>, kind: Kind) {
    var returned := exists o | o in observations :: id in o.observedIds;
    match kind
    case Staged => returned
    case Deleted => !returned && id !in existing
    case Missed => !returned && id in existing
  }

  lemma ContributionHolds(minId: int, maxId: int, size: int, observations: seq<Observation>, existing: set<int>,
                          probed: seq<set<int>>, k: nat, kind: Kind, id: int)
    requires size >= 1 && minId <= maxId && k < |observations|
    requires AuditedShards(minId, maxId, size, observations, existing, probed)
    ensures id in Contribution(observations[k], Classify(observations[k], probed[k]), kind) <==>
              InWindow(id, Shards(minId, maxId, size)[k]) && Counts(id, observations, existing, kind)
  {
    var o := observations[k];
    Classified(o, probed[k]);
    GapsHold(o);
    assert o in observations;
    hide Classify, Shards, Gaps;
    if InWindow(id, o.window) {
      forall other | other in observations && id in other.observedIds
        ensures other == o
      {
        var m :| 0 <= m < |observations| && observations[m] == other;
        OneShardOnly(minId, maxId, size, id, k, m);
      }
    }
  }

  lemma ContributionsApart(minId: int, maxId: int, size: int, observations: seq<Observation>, existing: set<int>,
                           probed: seq<set<int>>, kind: Kind)
    requires size >= 1 && minId <= maxId
    requires AuditedShards(minId, maxId, size, observations, existing, probed)
    requires |Verdicts(observations, probed)| == |observations|
    ensures Apart(Contributions(observations, Verdicts(observations, probed), kind))
    ensures forall id :: id in Union(Contributions(observations, Verdicts(observations, probed), kind)) <==>
                           minId <= id <= maxId && Counts(id, observations, existing, kind)
  {
    VerdictsAt(observations, probed);
    var sets := Contributions(observations, Verdicts(observations, probed), kind);
    UnionHolds(sets);
    hide Contribution, Classify, Shards, Counts, Union, InWindow, Verdicts;
    forall i, j | 0 <= i < j < |sets|
      ensures sets[i] !! sets[j]
    {
      forall id | id in sets[i]
        ensures id !in sets[j]
      {
        ContributionHolds(minId, maxId, size, observations, existing, probed, i, kind, id);
        ContributionHolds(minId, maxId, size, observations, existing, probed, j, kind, id);
        if id in sets[j] {
          OneShardOnly(minId, maxId, size, id, i, j);
        }
      }
    }
    forall id
      ensures id in Union(sets) <==> minId <= id <= maxId && Counts(id, observations, existing, kind)
    {
      if minId <= id <= maxId && Counts(id, observations, existing, kind) {
        var k := ShardOf(minId, maxId, size, id);
        ContributionHolds(minId, maxId, size, observations, existing, probed, k, kind, id);
        assert id in sets[k];
      }
      if k :| 0 <= k < |sets| && id in sets[k] {
        ContributionHolds(minId, maxId, size, observations, existing, probed, k, kind, id);
        OneShardOnly(minId, maxId, size, id, k, k);
      }
    }
  }

  /**
   * The totals of an audited range: staged counts the ids a walk returned, missed those that exist all the same, and
   * deleted those that do not.
   */
  lemma TotalsCountIds(minId: int, maxId: int, size: int, batchSize: int, observations: seq<Observation>,
                       existing: set<int>, fetches: seq<seq<set<int>>>)
    requires size >= 1 && batchSize >= 1 && minId <= maxId
    requires ProbedShards(minId, maxId, size, batchSize, observations, existing, fetches)
    ensures var audit := AuditResource(Verdicts(observations, Resolved(fetches)));
            && audit.totalStaged == |set id | minId <= id <= maxId && Counts(id, observations, existing, Staged)|
            && audit.totalDeleted == |set id | minId <= id <= maxId && Counts(id, observations, existing, Deleted)|
            && audit.totalMissed == |set id | minId <= id <= maxId && Counts(id, observations, existing, Missed)|
  {
    ProbingResolves(minId, maxId, size, batchSize, observations, existing, fetches);
    TotalCounts(minId, maxId, size, observations, existing, Resolved(fetches), Staged);
    TotalCounts(minId, maxId, size, observations, existing, Resolved(fetches), Deleted);
    TotalCounts(minId, maxId, size, observations, existing, Resolved(fetches), Missed);
  }

  lemma TotalCounts(minId: int, maxId: int, size: int, observations: seq<Observation>, existing: set<int>,
                    probed: seq<set<int>>, kind: Kind)
    requires size >= 1 && minId <= maxId
    requires AuditedShards(minId, maxId, size, observations, existing, probed)
    ensures Total(AuditResource(Verdicts(observations, probed)), kind) ==
              |set id | minId <= id <= maxId && Counts(id, observations, existing, kind)|
  {
    assert |observations| == |probed|;
    hide Contributions, Counts, Union, Sizes, Apart, AuditedShards, Verdicts, AuditResource;
    TotalsAreSizes(observations, probed, kind);
    ContributionsApart(minId, maxId, size, observations, existing, probed, kind);
    var sets := Contributions(observations, Verdicts(observations, probed), kind);
    DisjointSizes(sets);
    assert Union(sets) == set id | minId <= id <= maxId && Counts(id, observations, existing, kind);
  }
}
