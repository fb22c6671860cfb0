/** What grouping, sorting and aligning do to totals. */
module FixtureTotals {
  import opened Wrappers
  import opened Decimals
  import opened MetricEngine
  import opened StableSort
  import opened FixtureQueries

  // ---------------------------------------------------------------- a group holds the rows with its key

  ghost predicate DistinctGroups(groups: seq<Group>) {
    forall i, j | 0 <= i < j < |groups| :: groups[i].dimensions != groups[j].dimensions
  }

  function RowsWith(rows: seq<Row>, key: ResultRow, dimensions: seq<string>, week: Row -> string): seq<Row> {
    if rows == [] then []
    else
      var front, last := RowsWith(rows[..|rows| - 1], key, dimensions, week), rows[|rows| - 1];
      if KeyOf(last, dimensions, week) == key then front + [last] else front
  }

  ghost predicate Holds(g: Group, rows: seq<Row>, dimensions: seq<string>, week: Row -> string) {
    g.rows != [] && g.rows == RowsWith(rows, g.dimensions, dimensions, week)
  }

  lemma {:induction false} NoGroupNoRows(rows: seq<Row>, key: ResultRow, dimensions: seq<string>, week: Row -> string)
    requires forall row | row in rows :: KeyOf(row, dimensions, week) != key
    ensures RowsWith(rows, key, dimensions, week) == []
  {
    if rows != [] {
      NoGroupNoRows(rows[..|rows| - 1], key, dimensions, week);
    }
  }

  lemma JoinedHolds(before: seq<Group>, rows: seq<Row>, dimensions: seq<string>, week: Row -> string, g: Group)
    requires rows != [] && DistinctGroups(before)
    requires var front := rows[..|rows| - 1];
             && (forall h | h in before :: Holds(h, front, dimensions, week))
             && (forall row | row in front :: exists h :: h in before && h.dimensions == KeyOf(row, dimensions, week))
    requires g in Joined(before, KeyOf(rows[|rows| - 1], dimensions, week), rows[|rows| - 1])
    ensures Holds(g, rows, dimensions, week)
  {
    hide KeyOf, DistinctGroups;
    var front, last := rows[..|rows| - 1], rows[|rows| - 1];
    var key := KeyOf(last, dimensions, week);
    var i, groups := Position(before, key), Joined(before, key, last);
    var j :| 0 <= j < |groups| && groups[j] == g;
    if j < |before| {
      assert Holds(before[j], front, dimensions, week);
      if j != i {
        OtherKey(before, key, j);
      }
    } else {
      NoGroupNoRows(front, key, dimensions, week);
    }
  }

  lemma OtherKey(groups: seq<Group>, key: ResultRow, j: nat)
    requires DistinctGroups(groups) && j < |groups| && j != Position(groups, key)
    ensures groups[j].dimensions != key
  {
  }

  /** Every key among the rows has exactly one group, holding the rows with that key in their order. */
  lemma {:induction false} GroupsPartitionRows(rows: seq<Row>, dimensions: seq<string>, week: Row -> string)
    ensures var groups := Grouped(rows, dimensions, week);
            && DistinctGroups(groups)
            && (forall g | g in groups :: Holds(g, rows, dimensions, week))
            && (forall row | row in rows :: exists g :: g in groups && g.dimensions == KeyOf(row, dimensions, week))
  {
    hide KeyOf, Holds;
    if rows != [] {
      var front, last := rows[..|rows| - 1], rows[|rows| - 1];
      GroupsPartitionRows(front, dimensions, week);
      var before, key := Grouped(front, dimensions, week), KeyOf(last, dimensions, week);
      JoinedDistinct(before, key, last);
      forall g | g in Joined(before, key, last)
        ensures Holds(g, rows, dimensions, week)
      {
        JoinedHolds(before, rows, dimensions, week, g);
      }
      forall row | row in rows
        ensures exists g :: g in Joined(before, key, last) && g.dimensions == KeyOf(row, dimensions, week)
      {
        assert row == last || row in front;
        GroupKept(before, key, last, KeyOf(row, dimensions, week));
      }
    }
  }

  lemma JoinedDistinct(before: seq<Group>, key: ResultRow, row: Row)
    requires DistinctGroups(before)
    ensures DistinctGroups(Joined(before, key, row))
  {
  }

  lemma GroupKept(before: seq<Group>, key: ResultRow, row: Row, other: ResultRow)
    requires other == key || exists g :: g in before && g.dimensions == other
    ensures exists g :: g in Joined(before, key, row) && g.dimensions == other
  {
    var i, groups := Position(before, key), Joined(before, key, row);
    if other == key {
      assert groups[i] in groups;
    } else {
      var j :| 0 <= j < |before| && before[j].dimensions == other;
      assert groups[j] in groups;
    }
  }

  // ---------------------------------------------------------------- sums and counts over groups

  /** Built from sums and counts by adding, subtracting and referring to other such metrics, without a cycle. */
  predicate AdditiveIn(c: Calculation, registry: Registry, stack: set<string>)
    decreases Ids(registry) - stack, c
  {
    match c
    case Aggregate(op, _, _) => op.Sum? || op.Count?
    case Add(left, right) => AdditiveIn(left, registry, stack) && AdditiveIn(right, registry, stack)
    case Subtract(left, right) => AdditiveIn(left, registry, stack) && AdditiveIn(right, registry, stack)
    case Metric(name) =>
      name in registry && registry[name].id !in stack &&
      (assert registry[name].id in Ids(registry) - stack;
       AdditiveIn(registry[name].calculation, registry, stack + {registry[name].id}))
    case _ => false
  }

  predicate Additive(metric: MetricContract, registry: Registry) {
    AdditiveIn(metric.calculation, registry, {metric.id})
  }

  /** What one row contributes to a calculation of this metric; None when a cell it counts is no decimal. */
  function Part(row: Row, c: Calculation, metric: MetricContract, registry: Registry, stack: set<string>)
    : Option<Scaled>
    requires AdditiveIn(c, registry, stack)
    decreases Ids(registry) - stack, c
  {
    match c
    case Aggregate(op, column, filter) =>
      if !Selected(row, metric, filter) then Some(0)
      else if op.Count? then Some(SCALE)
      else FromText(ColumnText(row, column))
    case Metric(name) =>
      var next := registry[name];
      assert next.id in Ids(registry) - stack;
      Part(row, next.calculation, next, registry, stack + {next.id})
    case Add(left, right) =>
      var x, y := Part(row, left, metric, registry, stack), Part(row, right, metric, registry, stack);
      if x.Some? && y.Some? then Some(x.value + y.value) else None
    case Subtract(left, right) =>
      var x, y := Part(row, left, metric, registry, stack), Part(row, right, metric, registry, stack);
      if x.Some? && y.Some? then Some(x.value - y.value) else None
  }

  /** The sum of the rows' parts, when every row has one. */
  function Parts(rows: seq<Row>, c: Calculation, metric: MetricContract, registry: Registry, stack: set<string>)
    : Option<Scaled>
    requires AdditiveIn(c, registry, stack)
  {
    if rows == [] then Some(0)
    else
      var front, last := Parts(rows[..|rows| - 1], c, metric, registry, stack),
                         Part(rows[|rows| - 1], c, metric, registry, stack);
      if front.Some? && last.Some? then Some(front.value + last.value) else None
  }

  lemma AdditiveSplits(c: Calculation, registry: Registry, stack: set<string>)
    requires AdditiveIn(c, registry, stack) && (c.Add? || c.Subtract?)
    ensures AdditiveIn(c.left, registry, stack) && AdditiveIn(c.right, registry, stack)
  {
  }

  lemma NoParts(c: Calculation, metric: MetricContract, registry: Registry, stack: set<string>)
    requires AdditiveIn(c, registry, stack)
    ensures Parts([], c, metric, registry, stack) == Some(0)
  {
    hide AdditiveIn, Part;
  }

  lemma PartSplit(row: Row, c: Calculation, metric: MetricContract, registry: Registry, stack: set<string>)
    requires AdditiveIn(c, registry, stack) && (c.Add? || c.Subtract?)
    ensures var x, y := Part(row, c.left, metric, registry, stack), Part(row, c.right, metric, registry, stack);
            Part(row, c, metric, registry, stack) ==
            if x.None? || y.None? then None
            else if c.Add? then Some(x.value + y.value)
            else Some(x.value - y.value)
  {
  }

  /** Adding and subtracting row by row is adding and subtracting the sums. */
  lemma {:induction false} PartsSplit(rows: seq<Row>, c: Calculation, metric: MetricContract, registry: Registry,
                                      stack: set<string>)
    requires AdditiveIn(c, registry, stack) && (c.Add? || c.Subtract?)
    ensures var x, y := Parts(rows, c.left, metric, registry, stack), Parts(rows, c.right, metric, registry, stack);
            Parts(rows, c, metric, registry, stack) ==
            if x.None? || y.None? then None
            else if c.Add? then Some(x.value + y.value)
            else Some(x.value - y.value)
  {
    hide *;
    AdditiveSplits(c, registry, stack);
    if rows == [] {
      NoParts(c, metric, registry, stack);
      NoParts(c.left, metric, registry, stack);
      NoParts(c.right, metric, registry, stack);
    } else {
      PartsSplit(rows[..|rows| - 1], c, metric, registry, stack);
      PartSplit(rows[|rows| - 1], c, metric, registry, stack);
      PartsUnfold(rows, c, metric, registry, stack);
      PartsUnfold(rows, c.left, metric, registry, stack);
      PartsUnfold(rows, c.right, metric, registry, stack);
    }
  }

  /** A reference stands for the metric it names. */
  lemma {:induction false} PartsFollow(rows: seq<Row>, name: string, metric: MetricContract, registry: Registry,
                                       stack: set<string>)
    requires AdditiveIn(Metric(name), registry, stack)
    ensures var next := registry[name];
            Parts(rows, Metric(name), metric, registry, stack) ==
            Parts(rows, next.calculation, next, registry, stack + {next.id})
  {
    if rows != [] {
      PartsFollow(rows[..|rows| - 1], name, metric, registry, stack);
    }
  }

  lemma AggregateStep(front: seq<Row>, row: Row, op: AggregateOp, column: Option<string>, metric: MetricContract)
    requires op.Sum? || op.Count?
    ensures var share := if op.Count? then Some(SCALE) else FromText(ColumnText(row, column));
            var before, after := Aggregated(op, column, metric, front), Aggregated(op, column, metric, front + [row]);
            (after.Ok? <==> before.Ok? && share.Some?) && (after.Ok? ==> after.value == before.value + share.value)
  {
    hide FromText;
    assert (front + [row])[..|front|] == front;
  }

  lemma {:induction false} AggregateIsParts(rows: seq<Row>, op: AggregateOp, column: Option<string>,
                                            filter: Option<Filter>, metric: MetricContract, registry: Registry,
                                            stack: set<string>)
    requires op.Sum? || op.Count?
    ensures var r, parts := Aggregated(op, column, metric, Select(rows, metric, filter)),
                            Parts(rows, Aggregate(op, column, filter), metric, registry, stack);
            (r.Ok? <==> parts.Some?) && (r.Ok? ==> r.value == parts.value)
  {
    hide Selected, FromText, Aggregated;
    if rows == [] {
      NothingAggregated(op, column, metric);
    } else {
      var front, last := rows[..|rows| - 1], rows[|rows| - 1];
      AggregateIsParts(front, op, column, filter, metric, registry, stack);
      AggregateStep(Select(front, metric, filter), last, op, column, metric);
    }
  }

  lemma NothingAggregated(op: AggregateOp, column: Option<string>, metric: MetricContract)
    requires op.Sum? || op.Count?
    ensures Aggregated(op, column, metric, []) == Ok(0)
  {
  }

  /** The recursion over the whole calculation succeeds exactly when every part reads, and is then their sum. */
  lemma {:induction false} EvalIsParts(rows: seq<Row>, c: Calculation, metric: MetricContract, registry: Registry,
                                       stack: set<string>)
    requires AdditiveIn(c, registry, stack)
    ensures var r, parts := Eval(c, metric, rows, registry, stack), Parts(rows, c, metric, registry, stack);
            (r.Ok? <==> parts.Some?) && (r.Ok? ==> r.value == parts.value)
    decreases Ids(registry) - stack, c
  {
    hide Aggregated, Select, Parts;
    match c
    case Aggregate(op, column, filter) => AggregateIsParts(rows, op, column, filter, metric, registry, stack);
    case Metric(name) =>
      var next := registry[name];
      assert next.id in Ids(registry) - stack;
      PartsFollow(rows, name, metric, registry, stack);
      EvalIsParts(rows, next.calculation, next, registry, stack + {next.id});
    case Add(left, right) =>
      PartsSplit(rows, c, metric, registry, stack);
      EvalIsParts(rows, left, metric, registry, stack);
      EvalIsParts(rows, right, metric, registry, stack);
    case Subtract(left, right) =>
      PartsSplit(rows, c, metric, registry, stack);
      EvalIsParts(rows, left, metric, registry, stack);
      EvalIsParts(rows, right, metric, registry, stack);
  }

  /** What one row can contribute to a metric over its window. */
  function Share(row: Row, metric: MetricContract, range: Range, ctx: Context): Option<Scaled>
    requires Additive(metric, ctx.registry)
  {
    if !InWindow(row, metric, range, ctx) then Some(0)
    else Part(row, metric.calculation, metric, ctx.registry, {metric.id})
  }

  ghost predicate Readable(rows: seq<Row>, metric: MetricContract, range: Range, ctx: Context)
    requires Additive(metric, ctx.registry)
  {
    forall row | row in rows :: Share(row, metric, range, ctx).Some?
  }

  function Shares(rows: seq<Row>, metric: MetricContract, range: Range, ctx: Context): Scaled
    requires Additive(metric, ctx.registry)
  {
    if rows == [] then 0
    else
      var share := Share(rows[|rows| - 1], metric, range, ctx);
      Shares(rows[..|rows| - 1], metric, range, ctx) + if share.Some? then share.value else 0
  }

  lemma ReadableStep(rows: seq<Row>, metric: MetricContract, range: Range, ctx: Context)
    requires Additive(metric, ctx.registry) && rows != []
    ensures Readable(rows, metric, range, ctx) <==>
              Readable(rows[..|rows| - 1], metric, range, ctx) && Share(rows[|rows| - 1], metric, range, ctx).Some?
  {
    hide Share;
    assert rows == rows[..|rows| - 1] + [rows[|rows| - 1]];
  }

  lemma {:induction false} WindowedParts(rows: seq<Row>, metric: MetricContract, range: Range, ctx: Context)
    requires Additive(metric, ctx.registry)
    ensures var windowed := Windowed(rows, metric, range, ctx);
            var parts := Parts(windowed, metric.calculation, metric, ctx.registry, {metric.id});
            && (parts.Some? <==> Readable(rows, metric, range, ctx))
            && (parts.Some? ==> parts.value == Shares(rows, metric, range, ctx))
  {
    hide Part, InWindow, Readable, Parts, AdditiveIn;
    if rows == [] {
      NothingToRead(metric, range, ctx);
    } else {
      var front, last := rows[..|rows| - 1], rows[|rows| - 1];
      WindowedParts(front, metric, range, ctx);
      ReadableStep(rows, metric, range, ctx);
      PartsStep(Windowed(front, metric, range, ctx), last, metric.calculation, metric, ctx.registry, {metric.id});
    }
  }

  lemma PartsStep(front: seq<Row>, row: Row, c: Calculation, metric: MetricContract, registry: Registry,
                  stack: set<string>)
    requires AdditiveIn(c, registry, stack)
    ensures var before, part := Parts(front, c, metric, registry, stack), Part(row, c, metric, registry, stack);
            Parts(front + [row], c, metric, registry, stack) ==
            if before.Some? && part.Some? then Some(before.value + part.value) else None
  {
    hide *;
    var all := front + [row];
    assert all != [] && all[|all| - 1] == row && all[..|all| - 1] == front;
    PartsUnfold(all, c, metric, registry, stack);
  }

  lemma PartsUnfold(rows: seq<Row>, c: Calculation, metric: MetricContract, registry: Registry, stack: set<string>)
    requires AdditiveIn(c, registry, stack) && rows != []
    ensures var front, last := Parts(rows[..|rows| - 1], c, metric, registry, stack),
                               Part(rows[|rows| - 1], c, metric, registry, stack);
            Parts(rows, c, metric, registry, stack) ==
            if front.Some? && last.Some? then Some(front.value + last.value) else None
  {
    hide AdditiveIn, Part;
  }

  lemma NothingToRead(metric: MetricContract, range: Range, ctx: Context)
    requires Additive(metric, ctx.registry)
    ensures Readable([], metric, range, ctx)
    ensures Parts([], metric.calculation, metric, ctx.registry, {metric.id}) == Some(0)
  {
  }

  /** Such a metric is measured exactly when every counted cell reads, and is then the sum of the rows' shares. */
  lemma MeasureIsShares(rows: seq<Row>, metric: MetricContract, range: Range, ctx: Context)
    requires Additive(metric, ctx.registry) && WindowFault(metric, range, ctx).None?
    ensures Measure(metric, rows, range, ctx).Ok? <==> Readable(rows, metric, range, ctx)
    ensures Measure(metric, rows, range, ctx).Ok? ==>
              Measure(metric, rows, range, ctx).value == Shares(rows, metric, range, ctx)
  {
    hide Shares, Readable, Windowed, WindowFault, Eval, Parts;
    WindowedParts(rows, metric, range, ctx);
    EvalIsParts(Windowed(rows, metric, range, ctx), metric.calculation, metric, ctx.registry, {metric.id});
  }

  function SharesOfGroups(groups: seq<Group>, metric: MetricContract, range: Range, ctx: Context): Scaled
    requires Additive(metric, ctx.registry)
  {
    if groups == [] then 0
    else
      SharesOfGroups(groups[..|groups| - 1], metric, range, ctx) + Shares(groups[|groups| - 1].rows, metric, range, ctx)
  }

  lemma {:induction false} UpdatedGroupShares(groups: seq<Group>, i: nat, g: Group, metric: MetricContract,
                                              range: Range, ctx: Context)
    requires Additive(metric, ctx.registry) && i < |groups|
    ensures SharesOfGroups(groups[i := g], metric, range, ctx) ==
              SharesOfGroups(groups, metric, range, ctx) - Shares(groups[i].rows, metric, range, ctx) +
                Shares(g.rows, metric, range, ctx)
  {
    hide Shares;
    var front := groups[..|groups| - 1];
    if i == |groups| - 1 {
      assert groups[i := g][..i] == front;
    } else {
      assert groups[i := g][..|groups| - 1] == front[i := g];
      UpdatedGroupShares(front, i, g, metric, range, ctx);
    }
  }

  lemma JoinedShares(groups: seq<Group>, key: ResultRow, row: Row, metric: MetricContract, range: Range, ctx: Context)
    requires Additive(metric, ctx.registry)
    ensures SharesOfGroups(Joined(groups, key, row), metric, range, ctx) ==
              SharesOfGroups(groups, metric, range, ctx) + Shares([row], metric, range, ctx)
  {
    hide Share;
    var i := Position(groups, key);
    assert [row][..0] == [];
    if i < |groups| {
      var grown := groups[i].rows + [row];
      assert grown[..|groups[i].rows|] == groups[i].rows;
      UpdatedGroupShares(groups, i, Group(key, grown), metric, range, ctx);
    } else {
      assert (groups + [Group(key, [row])])[..|groups|] == groups;
    }
  }

  lemma {:induction false} GroupedShares(rows: seq<Row>, dimensions: seq<string>, metric: MetricContract, range: Range,
                                         ctx: Context)
    requires Additive(metric, ctx.registry)
    ensures SharesOfGroups(Grouped(rows, dimensions, ctx.week), metric, range, ctx) == Shares(rows, metric, range, ctx)
  {
    hide Share, Joined;
    if rows != [] {
      var front, last := rows[..|rows| - 1], rows[|rows| - 1];
      GroupedShares(front, dimensions, metric, range, ctx);
      JoinedShares(Grouped(front, dimensions, ctx.week), KeyOf(last, dimensions, ctx.week), last, metric, range, ctx);
      assert [last][..0] == [];
    }
  }

  lemma {:induction false} RowsWithMembers(rows: seq<Row>, key: ResultRow, dimensions: seq<string>, week: Row -> string)
    ensures forall row ::
              row in RowsWith(rows, key, dimensions, week) <==> row in rows && KeyOf(row, dimensions, week) == key
  {
    if rows != [] {
      RowsWithMembers(rows[..|rows| - 1], key, dimensions, week);
      assert rows == rows[..|rows| - 1] + [rows[|rows| - 1]];
    }
  }

  lemma GroupsReadable(rows: seq<Row>, dimensions: seq<string>, metric: MetricContract, range: Range, ctx: Context)
    requires Additive(metric, ctx.registry)
    ensures Readable(rows, metric, range, ctx) <==>
              forall g | g in Groups(rows, dimensions, ctx.week) :: Readable(g.rows, metric, range, ctx)
  {
    hide Share, KeyOf;
    var groups := Grouped(rows, dimensions, ctx.week);
    GroupsPartitionRows(rows, dimensions, ctx.week);
    forall g | g in groups
      ensures forall row | row in g.rows :: row in rows
    {
      RowsWithMembers(rows, g.dimensions, dimensions, ctx.week);
    }
    if forall g | g in groups :: Readable(g.rows, metric, range, ctx) {
      forall row | row in rows
        ensures Share(row, metric, range, ctx).Some?
      {
        var g :| g in groups && g.dimensions == KeyOf(row, dimensions, ctx.week);
        RowsWithMembers(rows, g.dimensions, dimensions, ctx.week);
      }
    }
  }

  /** The per-group values of a metric, added up. */
  function TotalOver(groups: seq<Group>, metric: MetricContract, range: Range, ctx: Context): Scaled {
    if groups == [] then 0
    else
      var last := Measure(metric, groups[|groups| - 1].rows, range, ctx);
      TotalOver(groups[..|groups| - 1], metric, range, ctx) + if last.Ok? then last.value else 0
  }

  lemma {:induction false} TotalWithout(groups: seq<Group>, i: nat, metric: MetricContract, range: Range, ctx: Context)
    requires i < |groups|
    ensures TotalOver(groups, metric, range, ctx) ==
              TotalOver(groups[..i] + groups[i + 1..], metric, range, ctx) + TotalOver([groups[i]], metric, range, ctx)
  {
    hide Measure;
    assert [groups[i]][..0] == [];
    WithoutOne(groups, i);
    if i < |groups| - 1 {
      TotalWithout(groups[..|groups| - 1], i, metric, range, ctx);
    }
  }

  /** The order of the groups does not matter. */
  lemma {:induction false} TotalOfPermutation(a: seq<Group>, b: seq<Group>, metric: MetricContract, range: Range,
                                              ctx: Context)
    requires multiset(a) == multiset(b)
    ensures TotalOver(a, metric, range, ctx) == TotalOver(b, metric, range, ctx)
    decreases |a|
  {
    hide TotalOver;
    if a == [] {
      assert |multiset(b)| == 0;
    } else {
      var i := WithoutFirst(a, b);
      assert a[..0] + a[1..] == a[1..];
      TotalWithout(a, 0, metric, range, ctx);
      TotalWithout(b, i, metric, range, ctx);
      TotalOfPermutation(a[1..], b[..i] + b[i + 1..], metric, range, ctx);
    }
  }

  lemma {:induction false} TotalIsShares(groups: seq<Group>, metric: MetricContract, range: Range, ctx: Context)
    requires Additive(metric, ctx.registry) && WindowFault(metric, range, ctx).None?
    requires forall g | g in groups :: Measure(metric, g.rows, range, ctx).Ok?
    ensures TotalOver(groups, metric, range, ctx) == SharesOfGroups(groups, metric, range, ctx)
  {
    hide Measure, Shares;
    if groups != [] {
      TotalIsShares(groups[..|groups| - 1], metric, range, ctx);
      MeasureIsShares(groups[|groups| - 1].rows, metric, range, ctx);
    }
  }

  /**
   * Grouping conserves sums, counts and what is added up from them: all groups can be measured exactly when the rows
   * can be measured ungrouped, and then their values add up to the ungrouped value.
   */
  lemma GroupingConservesTotals(rows: seq<Row>, dimensions: seq<string>, metric: MetricContract, range: Range,
                                ctx: Context)
    requires Additive(metric, ctx.registry) && WindowFault(metric, range, ctx).None?
    ensures var groups, whole := Groups(rows, dimensions, ctx.week), Measure(metric, rows, range, ctx);
            && (whole.Ok? <==> forall g | g in groups :: Measure(metric, g.rows, range, ctx).Ok?)
            && (whole.Ok? ==> TotalOver(groups, metric, range, ctx) == whole.value)
  {
    hide Measure, Shares, Share, Grouped, WindowFault;
    var groups := Groups(rows, dimensions, ctx.week);
    MeasureIsShares(rows, metric, range, ctx);
    GroupsReadable(rows, dimensions, metric, range, ctx);
    forall g | g in groups
      ensures Measure(metric, g.rows, range, ctx).Ok? <==> Readable(g.rows, metric, range, ctx)
    {
      MeasureIsShares(g.rows, metric, range, ctx);
    }
    if Measure(metric, rows, range, ctx).Ok? {
      TotalIsShares(groups, metric, range, ctx);
      GroupedShares(rows, dimensions, metric, range, ctx);
      EmptyGroupShares(rows, dimensions, metric, range, ctx);
    }
  }

  lemma EmptyGroupShares(rows: seq<Row>, dimensions: seq<string>, metric: MetricContract, range: Range, ctx: Context)
    requires Additive(metric, ctx.registry)
    ensures SharesOfGroups(Groups(rows, dimensions, ctx.week), metric, range, ctx) ==
              SharesOfGroups(Grouped(rows, dimensions, ctx.week), metric, range, ctx)
  {
    hide Grouped;
    if Grouped(rows, dimensions, ctx.week) == [] {
      assert [Group(map[], [])][..0] == [];
    }
  }
}
