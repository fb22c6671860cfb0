/** Whole answers: order and limit, the totals a single query keeps, and what aligning components keeps. */
module FixtureAnswers {
  import opened Wrappers
  import opened Decimals
  import opened MetricEngine
  import opened StableSort
  import opened FixtureQueries
  import opened FixtureTotals

  function TotalAmount(rows: seq<ResultRow>, field: string): Scaled {
    if rows == [] then 0 else TotalAmount(rows[..|rows| - 1], field) + Amount(rows[|rows| - 1], field)
  }

  // ---------------------------------------------------------------- the order of rows does not matter to totals

  lemma {:induction false} TotalWithoutRow(rows: seq<ResultRow>, i: nat, field: string)
    requires i < |rows|
    ensures TotalAmount(rows, field) == TotalAmount(rows[..i] + rows[i + 1..], field) + Amount(rows[i], field)
  {
    hide Amount;
    WithoutOne(rows, i);
    if i < |rows| - 1 {
      TotalWithoutRow(rows[..|rows| - 1], i, field);
    }
  }

  lemma {:induction false} SameRowsSameTotal(a: seq<ResultRow>, b: seq<ResultRow>, field: string)
    requires multiset(a) == multiset(b)
    ensures TotalAmount(a, field) == TotalAmount(b, field)
    decreases |a|
  {
    hide TotalAmount, Amount;
    if a == [] {
      assert |multiset(b)| == 0;
    } else {
      var i := WithoutFirst(a, b);
      assert a[..0] + a[1..] == a[1..];
      TotalWithoutRow(a, 0, field);
      TotalWithoutRow(b, i, field);
      SameRowsSameTotal(a[1..], b[..i] + b[i + 1..], field);
    }
  }

  // ---------------------------------------------------------------- order and limit

  /** Text order is reflexive up to ties, total and transitive. */
  ghost predicate Orders(byKey: (ResultRow, ResultRow) -> int) {
    && (forall a, b :: byKey(a, b) <= 0 || byKey(b, a) <= 0)
    && (forall a, b, c :: byKey(a, b) <= 0 && byKey(b, c) <= 0 ==> byKey(a, c) <= 0)
  }

  /** Two rows that can be compared one way can be compared the other way, with an opposite verdict or a tie. */
  lemma {:induction false} ComparedBothWays(a: ResultRow, b: ResultRow, sort: seq<SortItem>, topic: Topic, ctx: Context)
    requires Orders(ctx.byKey)
    ensures var x, y := Compared(a, b, sort, topic, ctx), Compared(b, a, sort, topic, ctx);
            (x.Some? <==> y.Some?) && (x.Some? ==> x.value <= 0 || y.value <= 0)
  {
    hide FromText, Resolve, Short;
    if sort != [] {
      ComparedBothWays(a, b, sort[1..], topic, ctx);
    }
  }

  lemma {:induction false} ComparedIsTransitive(a: ResultRow, b: ResultRow, c: ResultRow, sort: seq<SortItem>,
                                                topic: Topic, ctx: Context)
    requires Orders(ctx.byKey)
    requires var x, y, z := Compared(a, b, sort, topic, ctx), Compared(b, c, sort, topic, ctx),
                            Compared(a, c, sort, topic, ctx);
             x.Some? && y.Some? && z.Some? && x.value <= 0 && y.value <= 0
    ensures Compared(a, c, sort, topic, ctx).value <= 0
  {
    hide FromText, Resolve, Short;
    if sort != [] {
      var field := Short(Resolve(sort[0].metric, topic, ctx.registry).value.id);
      if SortCell(a, field) == SortCell(b, field) == SortCell(c, field) {
        ComparedIsTransitive(a, b, c, sort[1..], topic, ctx);
      }
    }
  }

  lemma {:induction false} TiesWithItself(a: ResultRow, sort: seq<SortItem>, topic: Topic, ctx: Context)
    requires Orders(ctx.byKey) && Compared(a, a, sort, topic, ctx).Some?
    ensures Compared(a, a, sort, topic, ctx).value <= 0
  {
    ComparedBothWays(a, a, sort, topic, ctx);
  }

  lemma DifferentRowsCompare(rows: seq<ResultRow>, a: ResultRow, b: ResultRow, sort: seq<SortItem>, topic: Topic,
                             ctx: Context)
    requires Orders(ctx.byKey) && Sortable(rows, sort, topic, ctx) && a in rows && b in rows && a != b
    ensures Compared(a, b, sort, topic, ctx).Some?
  {
    hide Compared, Orders;
    var i, j :| 0 <= i < |rows| && 0 <= j < |rows| && rows[i] == a && rows[j] == b;
    ComparedBothWays(a, b, sort, topic, ctx);
  }

  /** On rows that can be compared the comparison is total and transitive. */
  lemma SortableRowsAreOrdered(rows: seq<ResultRow>, sort: seq<SortItem>, topic: Topic, ctx: Context)
    requires Orders(ctx.byKey) && Sortable(rows, sort, topic, ctx)
    ensures OrdersOn(rows, RowOrder(sort, topic, ctx))
  {
    hide Compared, Orders, Sortable;
    var order := RowOrder(sort, topic, ctx);
    forall a, b | a in rows && b in rows
      ensures order(a, b) <= 0 || order(b, a) <= 0
    {
      ComparedBothWays(a, b, sort, topic, ctx);
    }
    forall a, b, c | a in rows && b in rows && c in rows && order(a, b) <= 0 && order(b, c) <= 0
      ensures order(a, c) <= 0
    {
      if a == c {
        if Compared(a, a, sort, topic, ctx).Some? {
          TiesWithItself(a, sort, topic, ctx);
        }
      } else if a != b && b != c {
        DifferentRowsCompare(rows, a, b, sort, topic, ctx);
        DifferentRowsCompare(rows, b, c, sort, topic, ctx);
        DifferentRowsCompare(rows, a, c, sort, topic, ctx);
        ComparedIsTransitive(a, b, c, sort, topic, ctx);
      }
    }
  }

  /** Sorting loses and adds no row, keeps every total, and puts the rows in the requested order. */
  lemma SortedIsInOrder(rows: seq<ResultRow>, sort: seq<SortItem>, topic: Topic, ctx: Context)
    requires Sorted(rows, sort, topic, ctx).Ok?
    ensures var out := Sorted(rows, sort, topic, ctx).value;
            && |out| == |rows| && multiset(out) == multiset(rows)
            && (forall field :: TotalAmount(out, field) == TotalAmount(rows, field))
            && (sort != [] && Orders(ctx.byKey) ==> InOrder(out, RowOrder(sort, topic, ctx)))
  {
    hide Compared, TotalAmount, Orders, Sortable, OrdersOn, InOrder;
    var out, order := Sorted(rows, sort, topic, ctx).value, RowOrder(sort, topic, ctx);
    SortKeeps(rows, order);
    forall field
      ensures TotalAmount(out, field) == TotalAmount(rows, field)
    {
      SameRowsSameTotal(out, rows, field);
    }
    if sort != [] && Orders(ctx.byKey) {
      SortableRowsAreOrdered(rows, sort, topic, ctx);
      SortOrders(rows, rows, order);
    }
  }

  function Dropped(rows: seq<ResultRow>, limit: nat): seq<ResultRow> {
    if |rows| <= limit then [] else rows[limit..]
  }

  /** The kept and the dropped rows are all the rows, and no dropped row comes strictly before a kept one. */
  lemma LimitKeepsTheFirst(rows: seq<ResultRow>, sort: seq<SortItem>, limit: nat, topic: Topic, ctx: Context)
    requires Orders(ctx.byKey) && sort != [] && Sorted(rows, sort, topic, ctx).Ok?
    ensures var out := Sorted(rows, sort, topic, ctx).value;
            var kept, dropped := Limited(out, limit), Dropped(out, limit);
            && |kept| == (if |rows| <= limit then |rows| else limit)
            && multiset(kept + dropped) == multiset(rows)
            && forall i, j | 0 <= i < |kept| && 0 <= j < |dropped| ::
                 RowOrder(sort, topic, ctx)(kept[i], dropped[j]) <= 0
  {
    hide Orders, Sorted, RowOrder;
    SortedIsInOrder(rows, sort, topic, ctx);
    var out := Sorted(rows, sort, topic, ctx).value;
    var kept, dropped := Limited(out, limit), Dropped(out, limit);
    assert kept + dropped == out;
    forall i, j | 0 <= i < |kept| && 0 <= j < |dropped|
      ensures RowOrder(sort, topic, ctx)(kept[i], dropped[j]) <= 0
    {
      assert dropped[j] == out[limit + j];
    }
  }

  // ---------------------------------------------------------------- one query

  /** The metric whose value a row shows under a name: the last with that short name. */
  predicate Shows(metrics: seq<MetricContract>, k: nat, name: string) {
    k < |metrics| && Short(metrics[k].id) == name && forall j | k < j < |metrics| :: Short(metrics[j].id) != name
  }

  lemma {:induction false} ShownIsMeasured(group: Group, metrics: seq<MetricContract>, k: nat, range: Range,
                                           ctx: Context)
    requires k < |metrics| && Shows(metrics, k, Short(metrics[k].id)) && MeasureAll(group, metrics, range, ctx).Ok?
    ensures Measure(metrics[k], group.rows, range, ctx).Ok?
    ensures Amount(MeasureAll(group, metrics, range, ctx).value, Short(metrics[k].id)) ==
              Measure(metrics[k], group.rows, range, ctx).value
  {
    hide Measure, Short, FromText, ToText;
    if k < |metrics| - 1 {
      ShownIsMeasured(group, metrics[..|metrics| - 1], k, range, ctx);
    } else {
      TextRoundTrip(Measure(metrics[k], group.rows, range, ctx).value);
    }
  }

  lemma {:induction false} AnswerTotals(groups: seq<Group>, metrics: seq<MetricContract>, k: nat, range: Range,
                                        ctx: Context)
    requires k < |metrics| && Shows(metrics, k, Short(metrics[k].id)) && MeasureGroups(groups, metrics, range, ctx).Ok?
    ensures var out := MeasureGroups(groups, metrics, range, ctx).value;
            && |out| == |groups|
            && (forall g | g in groups :: Measure(metrics[k], g.rows, range, ctx).Ok?)
            && TotalAmount(out, Short(metrics[k].id)) == TotalOver(groups, metrics[k], range, ctx)
  {
    hide Measure, MeasureAll, Short, Amount;
    if groups != [] {
      var front, last := groups[..|groups| - 1], groups[|groups| - 1];
      AnswerTotals(front, metrics, k, range, ctx);
      ShownIsMeasured(last, metrics, k, range, ctx);
      var before, row := MeasureGroups(front, metrics, range, ctx).value, MeasureAll(last, metrics, range, ctx).value;
      assert (before + [row])[..|before|] == before;
      assert groups == front + [last];
    }
  }

  /** What the metric is over all the rows the query asks for, without grouping. */
  function Ungrouped(query: SingleQuery, k: nat, fixture: seq<FactRow>, ctx: Context): Result<Scaled, QueryError>
    requires SingleMetrics(query, ctx).Ok? && k < |SingleMetrics(query, ctx).value|
  {
    var metrics := SingleMetrics(query, ctx).value;
    Measure(metrics[k], AskedRows(fixture, metrics[0].baseFact, query, ctx), query.range, ctx)
  }

  ghost predicate Uncut(query: SingleQuery, fixture: seq<FactRow>, ctx: Context) {
    SingleMetrics(query, ctx).Ok? && SingleMetrics(query, ctx).value != [] &&
    |SingleGroups(query, SingleMetrics(query, ctx).value, fixture, ctx)| <= query.limit
  }

  lemma TopicIsKnown(query: SingleQuery, ctx: Context)
    requires SingleMetrics(query, ctx).Ok?
    ensures query.topic in ctx.topics
  {
  }

  lemma MeasuredWithoutFault(metric: MetricContract, rows: seq<Row>, range: Range, ctx: Context)
    requires Measure(metric, rows, range, ctx).Ok?
    ensures WindowFault(metric, range, ctx).None?
  {
  }

  /** Groups are measured in key order; their values add up the same. */
  lemma GroupOrderIsNoMatter(rows: seq<Row>, dimensions: seq<string>, metric: MetricContract, range: Range,
                             ctx: Context)
    ensures var groups := Groups(rows, dimensions, ctx.week);
            var ordered := SortedBy(groups, GroupOrder(ctx.byKey));
            && |ordered| == |groups|
            && (forall g :: g in ordered <==> g in groups)
            && TotalOver(ordered, metric, range, ctx) == TotalOver(groups, metric, range, ctx)
  {
    hide Groups, SortedBy, TotalOver;
    var groups := Groups(rows, dimensions, ctx.week);
    SortKeeps(groups, GroupOrder(ctx.byKey));
    SortMembers(groups, GroupOrder(ctx.byKey));
    TotalOfPermutation(SortedBy(groups, GroupOrder(ctx.byKey)), groups, metric, range, ctx);
  }

  /** The groups come in the order of their keys. */
  lemma GroupsFollowKeys(rows: seq<Row>, dimensions: seq<string>, ctx: Context)
    requires Orders(ctx.byKey)
    ensures InOrder(SortedBy(Groups(rows, dimensions, ctx.week), GroupOrder(ctx.byKey)), GroupOrder(ctx.byKey))
  {
    hide Groups, Orders, SortedBy, InOrder;
    var groups, order := Groups(rows, dimensions, ctx.week), GroupOrder(ctx.byKey);
    assert OrdersOn(groups, order) by {
      forall a, b
        ensures order(a, b) <= 0 || order(b, a) <= 0
      {
        KeysAreOrdered(ctx, a.dimensions, b.dimensions, b.dimensions);
      }
      forall a, b, c | order(a, b) <= 0 && order(b, c) <= 0
        ensures order(a, c) <= 0
      {
        KeysAreOrdered(ctx, a.dimensions, b.dimensions, c.dimensions);
      }
    }
    SortOrders(groups, groups, order);
  }

  lemma KeysAreOrdered(ctx: Context, a: ResultRow, b: ResultRow, c: ResultRow)
    requires Orders(ctx.byKey)
    ensures ctx.byKey(a, b) <= 0 || ctx.byKey(b, a) <= 0
    ensures ctx.byKey(a, b) <= 0 && ctx.byKey(b, c) <= 0 ==> ctx.byKey(a, c) <= 0
  {
  }

  /** Unless the limit cuts rows, the rows of an answer add up, metric by metric, to the ungrouped answer. */
  lemma SingleQueryConservesTotals(query: SingleQuery, fixture: seq<FactRow>, ctx: Context, k: nat)
    requires SingleAnswer(query, fixture, ctx).Ok? && Uncut(query, fixture, ctx)
    requires var metrics := SingleMetrics(query, ctx).value;
             && k < |metrics| && Shows(metrics, k, Short(metrics[k].id)) && Additive(metrics[k], ctx.registry)
             && (SingleGroups(query, metrics, fixture, ctx) != [] || WindowFault(metrics[k], query.range, ctx).None?)
    ensures Ungrouped(query, k, fixture, ctx).Ok?
    ensures TotalAmount(SingleAnswer(query, fixture, ctx).value, Short(SingleMetrics(query, ctx).value[k].id)) ==
              Ungrouped(query, k, fixture, ctx).value
  {
    TopicIsKnown(query, ctx);
    hide SingleMetrics, Measure, Groups, MeasureGroups, Sorted, Amount, Short, AskedRows, SortedBy, TotalOver;
    var metrics := SingleMetrics(query, ctx).value;
    var groups := SingleGroups(query, metrics, fixture, ctx);
    var rows := AskedRows(fixture, metrics[0].baseFact, query, ctx);
    AnswerTotals(groups, metrics, k, query.range, ctx);
    GroupOrderIsNoMatter(rows, query.dimensions, metrics[k], query.range, ctx);
    assert WindowFault(metrics[k], query.range, ctx).None? by {
      if groups != [] {
        MeasuredWithoutFault(metrics[k], groups[0].rows, query.range, ctx);
      }
    }
    GroupingConservesTotals(rows, query.dimensions, metrics[k], query.range, ctx);
    var out := MeasureGroups(groups, metrics, query.range, ctx).value;
    SortedIsInOrder(out, query.sort, ctx.topics[query.topic], ctx);
  }
}
