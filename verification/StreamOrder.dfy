/** Listing streams so that none comes before what it depends on. */
module StreamOrder {

  datatype Stream = Stream(id: string, dependencies: seq<string>)

  function Known(streams: seq<Stream>): set<string> {
    set s | s in streams :: s.id
  }

  /** The position a Map keeps for an id: the last, or none. */
  function LastAt(streams: seq<Stream>, id: string): (i: int)
    ensures -1 <= i < |streams| && (i >= 0 ==> streams[i].id == id)
    ensures i >= 0 <==> id in Known(streams)
  {
    if streams == [] then -1
    else if streams[|streams| - 1].id == id then |streams| - 1
    else
      assert streams == streams[..|streams| - 1] + [streams[|streams| - 1]];
      LastAt(streams[..|streams| - 1], id)
  }

  function Needs(streams: seq<Stream>, id: string): seq<string> {
    if LastAt(streams, id) < 0 then [] else streams[LastAt(streams, id)].dependencies
  }

  /** The ids on the way down to a stream: known and all different. */
  ghost predicate Trail(streams: seq<Stream>, trail: seq<string>) {
    && (forall id | id in trail :: id in Known(streams))
    && (forall i, j | 0 <= i < j < |trail| :: trail[i] != trail[j])
  }

  lemma {:induction false} DistinctFits(trail: seq<string>, ids: set<string>)
    requires (forall id | id in trail :: id in ids) && (forall i, j | 0 <= i < j < |trail| :: trail[i] != trail[j])
    ensures |trail| <= |ids|
  {
    if trail != [] {
      assert trail[0] in ids;
      forall id | id in trail[1..]
        ensures id in ids - {trail[0]}
      {
        assert id in trail;
      }
      DistinctFits(trail[1..], ids - {trail[0]});
    }
  }

  lemma TrailFits(streams: seq<Stream>, trail: seq<string>)
    requires Trail(streams, trail)
    ensures |trail| <= |Known(streams)|
    ensures forall id | id in Known(streams) && id !in trail ::
              |trail| < |Known(streams)| && Trail(streams, trail + [id])
  {
    DistinctFits(trail, Known(streams));
    forall id | id in Known(streams) && id !in trail
      ensures |trail| < |Known(streams)|
    {
      DistinctFits(trail + [id], Known(streams));
    }
  }

  /** Defined on every graph, cyclic ones included. */
  function DepthOf(streams: seq<Stream>, id: string, trail: seq<string>): (depth: nat)
    requires Trail(streams, trail)
    ensures depth + |trail| <= 2 * |Known(streams)|
    decreases |Known(streams)| - |trail|, 0
  {
    TrailFits(streams, trail);
    if id in trail then |trail|
    else if Needs(streams, id) == [] then 0
    else 1 + Deepest(streams, Needs(streams, id), trail + [id])
  }

  function Deepest(streams: seq<Stream>, ids: seq<string>, trail: seq<string>): (depth: nat)
    requires Trail(streams, trail) && ids != []
    ensures depth + |trail| <= 2 * |Known(streams)|
    decreases |Known(streams)| - |trail|, |ids|
  {
    TrailFits(streams, trail);
    var first := DepthOf(streams, ids[0], trail);
    if |ids| == 1 then first
    else
      var others := Deepest(streams, ids[1..], trail);
      if first < others then others else first
  }

  function Depth(streams: seq<Stream>, id: string): nat {
    DepthOf(streams, id, [])
  }

  function Priority(streams: seq<Stream>, id: string): int {
    if LastAt(streams, id) < 0 then 0 else Depth(streams, id) * 1000 + LastAt(streams, id)
  }

  function Insert(streams: seq<Stream>, id: string, listed: seq<string>): seq<string> {
    if listed == [] || Priority(streams, id) <= Priority(streams, listed[0]) then [id] + listed
    else [listed[0]] + Insert(streams, id, listed[1..])
  }

  /** The ids of a manifest by priority, equal ones in manifest order. */
  function Listed(streams: seq<Stream>, manifest: seq<string>): seq<string> {
    if manifest == [] then [] else Insert(streams, manifest[0], Listed(streams, manifest[1..]))
  }

  // ---------------------------------------------------------------- depth on acyclic graphs

  /** No cycle: what a stream needs has a lower rank. */
  ghost predicate Acyclic(streams: seq<Stream>, rank: string -> nat) {
    forall id, d | d in Needs(streams, id) :: rank(d) < rank(id)
  }

  /** A way down: each id needs the next. */
  ghost predicate Chain(streams: seq<Stream>, path: seq<string>) {
    path != [] && forall i | 0 <= i < |path| - 1 :: path[i + 1] in Needs(streams, path[i])
  }

  ghost predicate Above(trail: seq<string>, id: string, rank: string -> nat) {
    forall t | t in trail :: rank(id) < rank(t)
  }

  lemma {:induction false} DeepestIsGreatest(streams: seq<Stream>, ids: seq<string>, trail: seq<string>)
    returns (deepest: string)
    requires Trail(streams, trail) && ids != []
    ensures forall d | d in ids :: DepthOf(streams, d, trail) <= Deepest(streams, ids, trail)
    ensures deepest in ids && DepthOf(streams, deepest, trail) == Deepest(streams, ids, trail)
  {
    hide DepthOf, Trail;
    deepest := ids[0];
    if |ids| > 1 {
      var other := DeepestIsGreatest(streams, ids[1..], trail);
      if DepthOf(streams, other, trail) > DepthOf(streams, deepest, trail) {
        deepest := other;
      }
      assert forall d | d in ids :: d == ids[0] || d in ids[1..];
    }
  }

  lemma StillAbove(streams: seq<Stream>, id: string, trail: seq<string>, rank: string -> nat)
    requires Acyclic(streams, rank) && Above(trail, id, rank)
    ensures forall d | d in Needs(streams, id) :: Above(trail + [id], d, rank)
  {
    hide Needs;
  }

  lemma NeedyIsKnown(streams: seq<Stream>, id: string, trail: seq<string>, rank: string -> nat)
    requires Trail(streams, trail) && Above(trail, id, rank) && Needs(streams, id) != []
    ensures Trail(streams, trail + [id]) && |trail| < |Known(streams)| && id !in trail
  {
    hide Trail;
    TrailFits(streams, trail);
  }

  /** Without cycles the depth is the length of the longest way down, whatever the trail. */
  lemma {:induction false} DepthIsLongestChain(streams: seq<Stream>, id: string, trail: seq<string>,
                                               rank: string -> nat)
    returns (path: seq<string>)
    requires Acyclic(streams, rank) && Trail(streams, trail) && Above(trail, id, rank)
    ensures Chain(streams, path) && path[0] == id && |path| == DepthOf(streams, id, trail) + 1
    decreases rank(id)
  {
    hide Trail, Deepest;
    path := [id];
    if Needs(streams, id) != [] {
      NeedyIsKnown(streams, id, trail, rank);
      StillAbove(streams, id, trail, rank);
      var d := DeepestIsGreatest(streams, Needs(streams, id), trail + [id]);
      var rest := DepthIsLongestChain(streams, d, trail + [id], rank);
      path := [id] + rest;
    } else {
      assert id !in trail;
    }
  }

  lemma {:induction false} NoLongerChain(streams: seq<Stream>, path: seq<string>, trail: seq<string>,
                                         rank: string -> nat)
    requires Acyclic(streams, rank) && Chain(streams, path) && Trail(streams, trail) && Above(trail, path[0], rank)
    ensures |path| <= DepthOf(streams, path[0], trail) + 1
    decreases |path|
  {
    hide Trail, Deepest;
    if |path| > 1 {
      var id := path[0];
      assert path[1] in Needs(streams, id);
      NeedyIsKnown(streams, id, trail, rank);
      StillAbove(streams, id, trail, rank);
      NoLongerChain(streams, path[1..], trail + [id], rank);
      var d := DeepestIsGreatest(streams, Needs(streams, id), trail + [id]);
    }
  }

  lemma ChainExtends(streams: seq<Stream>, id: string, path: seq<string>)
    requires Chain(streams, path) && path[0] in Needs(streams, id)
    ensures Chain(streams, [id] + path)
  {
    hide Needs;
    var longer := [id] + path;
    forall i | 0 <= i < |longer| - 1
      ensures longer[i + 1] in Needs(streams, longer[i])
    {
      if i > 0 {
        var k := i - 1;
        assert path[k + 1] in Needs(streams, path[k]);
      }
    }
  }

  lemma DependencyIsShallower(streams: seq<Stream>, id: string, d: string, rank: string -> nat)
    requires Acyclic(streams, rank) && d in Needs(streams, id)
    ensures Depth(streams, d) < Depth(streams, id)
  {
    hide DepthOf, Needs;
    var path := DepthIsLongestChain(streams, d, [], rank);
    ChainExtends(streams, id, path);
    NoLongerChain(streams, [id] + path, [], rank);
  }

  // ---------------------------------------------------------------- the listed order

  /** A dependency outranks a stream exactly when it is not a thousand places later for each level between them. */
  lemma OutranksExactly(streams: seq<Stream>, id: string, d: string)
    requires id in Known(streams) && d in Known(streams)
    ensures Priority(streams, d) < Priority(streams, id) <==>
              LastAt(streams, d) - LastAt(streams, id) < 1000 * (Depth(streams, id) - Depth(streams, d))
  {
    hide LastAt, Depth;
  }

  ghost predicate ByPriority(streams: seq<Stream>, listed: seq<string>) {
    forall i, j | 0 <= i < j < |listed| :: Priority(streams, listed[i]) <= Priority(streams, listed[j])
  }

  lemma ConsByPriority(streams: seq<Stream>, id: string, listed: seq<string>)
    requires ByPriority(streams, listed) && forall x | x in listed :: Priority(streams, id) <= Priority(streams, x)
    ensures ByPriority(streams, [id] + listed)
  {
    hide Priority;
  }

  lemma {:induction false} InsertMembers(streams: seq<Stream>, id: string, listed: seq<string>)
    ensures forall x :: x in Insert(streams, id, listed) <==> x == id || x in listed
    ensures multiset(Insert(streams, id, listed)) == multiset{id} + multiset(listed)
  {
    hide Priority;
    if listed != [] {
      assert listed == [listed[0]] + listed[1..];
      InsertMembers(streams, id, listed[1..]);
    }
  }

  lemma {:induction false} InsertKeepsOrder(streams: seq<Stream>, id: string, listed: seq<string>)
    requires ByPriority(streams, listed)
    ensures ByPriority(streams, Insert(streams, id, listed))
  {
    hide Priority;
    if listed == [] {
    } else if Priority(streams, id) <= Priority(streams, listed[0]) {
      ConsByPriority(streams, id, listed);
    } else {
      InsertKeepsOrder(streams, id, listed[1..]);
      InsertMembers(streams, id, listed[1..]);
      ConsByPriority(streams, listed[0], Insert(streams, id, listed[1..]));
    }
  }

  lemma {:induction false} ListedIsSorted(streams: seq<Stream>, manifest: seq<string>)
    ensures ByPriority(streams, Listed(streams, manifest)) && multiset(Listed(streams, manifest)) == multiset(manifest)
  {
    hide Priority, Insert;
    if manifest != [] {
      ListedIsSorted(streams, manifest[1..]);
      InsertKeepsOrder(streams, manifest[0], Listed(streams, manifest[1..]));
      InsertMembers(streams, manifest[0], Listed(streams, manifest[1..]));
      assert manifest == [manifest[0]] + manifest[1..];
    }
  }

  /** Without cycles, and up to a thousand streams, every listed dependency comes before each stream that needs it. */
  lemma DependenciesComeFirst(streams: seq<Stream>, manifest: seq<string>, rank: string -> nat, i: nat, j: nat)
    requires Acyclic(streams, rank) && |streams| <= 1000
    requires i < |Listed(streams, manifest)| && j < |Listed(streams, manifest)|
    requires var listed := Listed(streams, manifest);
             listed[i] in Known(streams) && listed[i] in Needs(streams, listed[j])
    ensures i < j
  {
    hide Listed, Depth, Needs;
    var listed := Listed(streams, manifest);
    ListedIsSorted(streams, manifest);
    NeededByKnown(streams, listed[j]);
    DependencyIsShallower(streams, listed[j], listed[i], rank);
    OutranksExactly(streams, listed[j], listed[i]);
  }

  lemma NeededByKnown(streams: seq<Stream>, id: string)
    ensures Needs(streams, id) != [] ==> id in Known(streams)
  {
  }

  /** Beyond that, a dependency one level down and a thousand places later is listed after the stream that needs it. */
  lemma FarDependencyComesLater(streams: seq<Stream>, manifest: seq<string>, i: nat, j: nat)
    requires i < |Listed(streams, manifest)| && j < |Listed(streams, manifest)|
    requires var listed := Listed(streams, manifest);
             && listed[i] in Known(streams) && listed[j] in Known(streams)
             && Depth(streams, listed[j]) == Depth(streams, listed[i]) + 1
             && LastAt(streams, listed[i]) > LastAt(streams, listed[j]) + 1000
    ensures j < i
  {
    hide Listed, Depth, LastAt;
    ListedIsSorted(streams, manifest);
    OutranksExactly(streams, Listed(streams, manifest)[j], Listed(streams, manifest)[i]);
  }

  /** A stream needs what it declares, the last declaration of an id being the one that counts; others need nothing. */
  lemma NeedsAreDeclared(streams: seq<Stream>, i: nat, id: string)
    requires i < |streams| && forall j | i < j < |streams| :: streams[j].id != streams[i].id
    ensures Needs(streams, streams[i].id) == streams[i].dependencies
    ensures (forall s | s in streams :: s.id != id) ==> Needs(streams, id) == []
  {
    LastOfItsId(streams, i);
  }

  lemma {:induction false} LastOfItsId(streams: seq<Stream>, i: nat)
    requires i < |streams| && forall j | i < j < |streams| :: streams[j].id != streams[i].id
    ensures LastAt(streams, streams[i].id) == i
  {
    if i < |streams| - 1 {
      LastOfItsId(streams[..|streams| - 1], i);
    }
  }
}
