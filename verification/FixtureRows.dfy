/** What the rows of an answer show: the groups' own values, and composite metrics read over their own row. */
module FixtureRows {
  import opened Wrappers
  import opened Decimals
  import opened MetricEngine
  import opened MetricProofs
  import opened StableSort
  import opened FixtureQueries
  import opened FixtureTotals
  import opened FixtureAnswers
  import opened FixtureAlignment

  predicate DistinctNames(metrics: seq<MetricContract>) {
    forall i, j | 0 <= i < j < |metrics| :: Short(metrics[i].id) != Short(metrics[j].id)
  }

  // ---------------------------------------------------------------- rows of a single answer

  /** The dimensions of the group, and under each metric's name its value over the group's rows. */
  ghost predicate Shows(row: ResultRow, g: Group, metrics: seq<MetricContract>, range: Range, ctx: Context) {
    && row.Keys == g.dimensions.Keys + ShortNames(metrics)
    && (forall d | d in g.dimensions && d !in ShortNames(metrics) :: row[d] == g.dimensions[d])
    && forall m | m in metrics ::
         && Measure(m, g.rows, range, ctx).Ok?
         && Short(m.id) in row && FromText(row[Short(m.id)]) == Some(Measure(m, g.rows, range, ctx).value)
  }

  lemma {:induction false} MeasuredRowShows(g: Group, metrics: seq<MetricContract>, range: Range, ctx: Context)
    requires MeasureAll(g, metrics, range, ctx).Ok? && DistinctNames(metrics)
    ensures Shows(MeasureAll(g, metrics, range, ctx).value, g, metrics, range, ctx)
  {
    hide Measure, Short, FromText, ToText;
    if metrics != [] {
      var front, last := metrics[..|metrics| - 1], metrics[|metrics| - 1];
      assert metrics == front + [last];
      NameIsNew(front, last);
      hide Shows, DistinctNames;
      MeasuredRowShows(g, front, range, ctx);
      AddedMetricShows(MeasureAll(g, front, range, ctx).value, g, front, last, range, ctx);
    } else {
      assert ShortNames(metrics) == {};
    }
  }

  lemma AddedMetricShows(row: ResultRow, g: Group, front: seq<MetricContract>, last: MetricContract, range: Range,
                         ctx: Context)
    requires Shows(row, g, front, range, ctx) && Short(last.id) !in ShortNames(front)
    requires Measure(last, g.rows, range, ctx).Ok?
    ensures Shows(row[Short(last.id) := ToText(Measure(last, g.rows, range, ctx).value)], g, front + [last], range, ctx)
  {
    hide Measure, Short, FromText, ToText;
    TextRoundTrip(Measure(last, g.rows, range, ctx).value);
    assert ShortNames(front + [last]) == ShortNames(front) + {Short(last.id)};
    forall m | m in front
      ensures Short(m.id) in ShortNames(front)
    {
    }
  }

  lemma {:induction false} MeasuredGroups(groups: seq<Group>, metrics: seq<MetricContract>, range: Range, ctx: Context)
    requires MeasureGroups(groups, metrics, range, ctx).Ok?
    ensures var out := MeasureGroups(groups, metrics, range, ctx).value;
            && |out| == |groups|
            && forall i | 0 <= i < |groups| :: MeasureAll(groups[i], metrics, range, ctx) == Ok(out[i])
  {
    hide MeasureAll;
    if groups != [] {
      MeasuredGroups(groups[..|groups| - 1], metrics, range, ctx);
    }
  }

  /** Every row of an answer shows one of the groups, and, unless the limit cuts, every group is shown by a row. */
  lemma SingleRowsShowGroups(query: SingleQuery, fixture: seq<FactRow>, ctx: Context)
    requires SingleAnswer(query, fixture, ctx).Ok? && DistinctNames(SingleMetrics(query, ctx).value)
    ensures SingleMetrics(query, ctx).Ok? && SingleMetrics(query, ctx).value != []
    ensures var answer, metrics := SingleAnswer(query, fixture, ctx).value, SingleMetrics(query, ctx).value;
            var rows := AskedRows(fixture, metrics[0].baseFact, query, ctx);
            var groups := Groups(rows, query.dimensions, ctx.week);
            && (forall row | row in answer :: exists g :: g in groups && Shows(row, g, metrics, query.range, ctx))
            && (|groups| <= query.limit ==>
                  forall g | g in groups :: exists row :: row in answer && Shows(row, g, metrics, query.range, ctx))
  {
    var metrics := SingleMetrics(query, ctx).value;
    FactIsShared(metrics);
    TopicIsKnown(query, ctx);
    hide SingleMetrics, Groups, SortedBy, Sorted, AskedRows, Shows, MeasureAll, DistinctNames;
    var unordered := Groups(AskedRows(fixture, metrics[0].baseFact, query, ctx), query.dimensions, ctx.week);
    var groups := SingleGroups(query, metrics, fixture, ctx);
    var out := MeasureGroups(groups, metrics, query.range, ctx).value;
    MeasuredGroups(groups, metrics, query.range, ctx);
    SortMembers(unordered, GroupOrder(ctx.byKey));
    SortKeeps(unordered, GroupOrder(ctx.byKey));
    SortedIsInOrder(out, query.sort, ctx.topics[query.topic], ctx);
    var sorted := Sorted(out, query.sort, ctx.topics[query.topic], ctx).value;
    SameMembers(sorted, out);
    var answer := SingleAnswer(query, fixture, ctx).value;
    forall row | row in answer
      ensures exists g :: g in unordered && Shows(row, g, metrics, query.range, ctx)
    {
      assert row in sorted;
      var i :| 0 <= i < |out| && out[i] == row;
      MeasuredRowShows(groups[i], metrics, query.range, ctx);
      assert groups[i] in groups;
    }
    forall g | g in unordered && |unordered| <= query.limit
      ensures exists row :: row in answer && Shows(row, g, metrics, query.range, ctx)
    {
      assert g in groups;
      var i :| 0 <= i < |groups| && groups[i] == g;
      MeasuredRowShows(g, metrics, query.range, ctx);
      assert out[i] in answer;
    }
  }

  // ---------------------------------------------------------------- composite metrics over their row

  function Without(row: ResultRow, names: set<string>): ResultRow {
    map f | f in row && f !in names :: row[f]
  }

  lemma {:induction false} ExtendedFields(row: ResultRow, metrics: seq<MetricContract>, registry: Registry)
    requires Extended(row, metrics, registry).Ok?
    ensures Extended(row, metrics, registry).value.Keys == row.Keys + ShortNames(metrics)
  {
    if metrics != [] {
      hide *;
      var front, last := metrics[..|metrics| - 1], metrics[|metrics| - 1];
      assert metrics == front + [last];
      ExtendedStep(row, metrics, registry);
      ExtendedFields(row, front, registry);
      NamesSplit(front, last);
      AddedFields(Extended(row, front, registry).value, last, registry);
    }
  }

  lemma AddedFields(row: ResultRow, m: MetricContract, registry: Registry)
    requires Adding(row, m, registry).Ok?
    ensures Added(row, m, registry).Keys == row.Keys + {Short(m.id)}
  {
    hide Short, ToText, Adding;
  }

  /** The text under composite metric k reads as its value over the row without what k and later metrics add. */
  ghost predicate ShowsComposite(out: ResultRow, metrics: seq<MetricContract>, registry: Registry, k: nat)
    requires k < |metrics|
  {
    var m := metrics[k];
    var value := Eval(m.calculation, m, [AsRow(Without(out, ShortNames(metrics[k..])))], registry, {m.id});
    value.Ok? && Short(m.id) in out && FromText(out[Short(m.id)]) == Some(value.value)
  }

  lemma {:induction false} ExtendedShowsComposites(row: ResultRow, metrics: seq<MetricContract>, registry: Registry,
                                                   k: nat)
    requires Extended(row, metrics, registry).Ok? && k < |metrics|
    requires DistinctNames(metrics) && row.Keys !! ShortNames(metrics)
    ensures ShowsComposite(Extended(row, metrics, registry).value, metrics, registry, k)
  {
    hide *;
    var front, last := metrics[..|metrics| - 1], metrics[|metrics| - 1];
    assert metrics == front + [last];
    ExtendedStep(row, metrics, registry);
    NamesSplit(front, last);
    NameIsNew(front, last);
    ExtendedFields(row, front, registry);
    var before := Extended(row, front, registry).value;
    if k == |metrics| - 1 {
      LastShows(before, front, last, registry);
    } else {
      ExtendedShowsComposites(row, front, registry, k);
      EarlierShows(before, front, last, registry, k);
    }
  }

  lemma ExtendedStep(row: ResultRow, metrics: seq<MetricContract>, registry: Registry)
    requires Extended(row, metrics, registry).Ok? && metrics != []
    ensures var front, last := metrics[..|metrics| - 1], metrics[|metrics| - 1];
            && Extended(row, front, registry).Ok?
            && Adding(Extended(row, front, registry).value, last, registry).Ok?
            && Extended(row, metrics, registry).value ==
                 Added(Extended(row, front, registry).value, last, registry)
  {
    hide Short, Eval, ToText, AsRow;
  }

  /** The value of one more metric over a row, and the row that shows it. */
  function Adding(row: ResultRow, m: MetricContract, registry: Registry): Outcome {
    Eval(m.calculation, m, [AsRow(row)], registry, {m.id})
  }

  function Added(row: ResultRow, m: MetricContract, registry: Registry): ResultRow
    requires Adding(row, m, registry).Ok?
  {
    row[Short(m.id) := ToText(Adding(row, m, registry).value)]
  }

  lemma NamesSplit(front: seq<MetricContract>, last: MetricContract)
    ensures ShortNames(front + [last]) == ShortNames(front) + {Short(last.id)}
  {
  }

  lemma LastShows(before: ResultRow, front: seq<MetricContract>, last: MetricContract, registry: Registry)
    requires Adding(before, last, registry).Ok? && Short(last.id) !in before
    ensures ShowsComposite(Added(before, last, registry), front + [last], registry, |front|)
  {
    hide Short, Eval, ToText, FromText, AsRow;
    OneName(last);
    var out := Added(before, last, registry);
    WithoutLater(before, Short(last.id), out[Short(last.id)], {});
    assert (front + [last])[|front|..] == [last] && Without(before, {}) == before;
    TextRoundTrip(Adding(before, last, registry).value);
  }

  lemma EarlierShows(before: ResultRow, front: seq<MetricContract>, last: MetricContract, registry: Registry, k: nat)
    requires Adding(before, last, registry).Ok? && Short(last.id) !in before
    requires k < |front| && ShowsComposite(before, front, registry, k)
    ensures ShowsComposite(Added(before, last, registry), front + [last], registry, k)
  {
    hide Short, Eval, ToText, FromText, AsRow, Without, ShortNames, Adding;
    var out := Added(before, last, registry);
    assert (front + [last])[k..] == front[k..] + [last];
    LaterNames(front, k, last);
    WithoutLater(before, Short(last.id), out[Short(last.id)], ShortNames(front[k..]));
  }

  lemma OneName(m: MetricContract)
    ensures ShortNames([m]) == {} + {Short(m.id)}
  {
  }

  lemma LaterNames(front: seq<MetricContract>, k: nat, last: MetricContract)
    requires k < |front|
    ensures ShortNames(front[k..] + [last]) == ShortNames(front[k..]) + {Short(last.id)}
    ensures Short(front[k].id) in ShortNames(front)
  {
    assert front[k] in front;
  }

  lemma WithoutLater(before: ResultRow, name: string, text: string, names: set<string>)
    requires name !in before
    ensures Without(before[name := text], names + {name}) == Without(before, names)
  {
  }

  lemma NameIsNew(front: seq<MetricContract>, last: MetricContract)
    requires DistinctNames(front + [last])
    ensures Short(last.id) !in ShortNames(front) && DistinctNames(front)
  {
    hide Short;
    var all := front + [last];
    forall m | m in front
      ensures Short(m.id) != Short(last.id)
    {
      var i :| 0 <= i < |front| && front[i] == m;
      assert all[i] == m && all[|front|] == last;
    }
    assert forall i | 0 <= i < |front| :: all[i] == front[i];
  }

  // ---------------------------------------------------------------- which fields the aligned rows have

  ghost predicate Lacks(rows: seq<ResultRow>, name: string) {
    forall row | row in rows :: name !in row
  }

  lemma {:induction false} AlignRowsLack(aligned: seq<ResultRow>, rows: seq<ResultRow>, alignOn: seq<string>,
                                         name: string)
    requires AlignRows(aligned, rows, alignOn).Ok? && name !in alignOn && Lacks(aligned, name) && Lacks(rows, name)
    ensures Lacks(AlignRows(aligned, rows, alignOn).value, name)
  {
    hide AlignRow;
    if rows != [] {
      var front, last := rows[..|rows| - 1], rows[|rows| - 1];
      assert rows == front + [last];
      AlignRowsLack(aligned, front, alignOn, name);
      AlignRowLacks(AlignRows(aligned, front, alignOn).value, last, alignOn, name);
    }
  }

  lemma AlignRowLacks(aligned: seq<ResultRow>, row: ResultRow, alignOn: seq<string>, name: string)
    requires AlignRow(aligned, row, alignOn).Ok? && name !in alignOn && Lacks(aligned, name) && name !in row
    ensures Lacks(AlignRow(aligned, row, alignOn).value, name)
  {
    var i := AlignPosition(aligned, AlignKey(row, alignOn), alignOn);
    var out := AlignRow(aligned, row, alignOn).value;
    forall other | other in out
      ensures name !in other
    {
      var j :| 0 <= j < |out| && out[j] == other;
      assert j < |aligned| ==> aligned[j] in aligned;
    }
  }

  lemma SubqueryLacks(query: SingleQuery, fixture: seq<FactRow>, ctx: Context, name: string)
    requires SubqueryAnswer(query, fixture, ctx).Ok? && !Names(query, name, ctx)
    ensures Lacks(SubqueryAnswer(query, fixture, ctx).value, name)
  {
    var sub := query.(sort := [], limit := SUBQUERY_LIMIT);
    var metrics := SingleMetrics(query, ctx).value;
    assert SingleMetrics(sub, ctx) == SingleMetrics(query, ctx);
    FactIsShared(metrics);
    hide ShortNames, MeasureAll, SortedBy, AskedRows, Grouped, ResolveAll, Facts;
    var unordered := Groups(AskedRows(fixture, metrics[0].baseFact, sub, ctx), sub.dimensions, ctx.week);
    var groups := SingleGroups(sub, metrics, fixture, ctx);
    GroupKeysAreDimensions(AskedRows(fixture, metrics[0].baseFact, sub, ctx), sub.dimensions, ctx.week);
    SortMembers(unordered, GroupOrder(ctx.byKey));
    MeasuredGroups(groups, metrics, sub.range, ctx);
    var out := MeasureGroups(groups, metrics, sub.range, ctx).value;
    forall row | row in SubqueryAnswer(query, fixture, ctx).value
      ensures name !in row
    {
      assert row in out;
      var i :| 0 <= i < |out| && out[i] == row;
      assert groups[i] in groups;
      UnnamedStaysOut(groups[i], metrics, sub.range, ctx, name);
    }
  }

  lemma {:induction false} AlignAllLacks(queries: seq<SingleQuery>, alignOn: seq<string>, fixture: seq<FactRow>,
                                         ctx: Context, name: string)
    requires AlignAll(queries, alignOn, fixture, ctx).Ok? && name !in alignOn
    requires forall q | q in queries :: !Names(q, name, ctx)
    ensures Lacks(AlignAll(queries, alignOn, fixture, ctx).value, name)
  {
    hide SubqueryAnswer, AlignRows, Names, Lacks;
    if queries == [] {
      NothingLacks(name);
    } else {
      var front, last := queries[..|queries| - 1], queries[|queries| - 1];
      assert queries == front + [last];
      AlignAllLacks(front, alignOn, fixture, ctx, name);
      SubqueryLacks(last, fixture, ctx, name);
      AlignRowsLack(AlignAll(front, alignOn, fixture, ctx).value, SubqueryAnswer(last, fixture, ctx).value, alignOn,
                    name);
    }
  }

  lemma NothingLacks(name: string)
    ensures Lacks([], name)
  {
  }

  lemma {:induction false} AliasesAreNamed(queries: seq<SingleQuery>, ctx: Context, name: string)
    requires forall q | q in queries :: !Names(q, name, ctx)
    ensures name !in Aliases(queries, ctx)
  {
    hide SingleMetrics, ShortNames;
    if queries != [] {
      var front, last := queries[..|queries| - 1], queries[|queries| - 1];
      assert last in queries && forall q | q in front :: q in queries;
      AliasesAreNamed(front, ctx, name);
    }
  }

  // ---------------------------------------------------------------- rows of a composite answer

  /** Composite metrics are named apart from one another, from the keys and from everything the components show. */
  ghost predicate NamedApart(query: CompositeQuery, ctx: Context) {
    && DistinctNames(CompositeMetrics(query, ctx))
    && forall name | name in ShortNames(CompositeMetrics(query, ctx)) ::
         name !in query.alignOn && forall q | q in query.queries :: !Names(q, name, ctx)
  }

  /** Every row of an answer, cut or not, is one aligned row with its defaults and composite metrics. */
  lemma AnswerRowIsExtended(query: CompositeQuery, fixture: seq<FactRow>, ctx: Context, row: ResultRow)
    returns (from: ResultRow)
    requires CompositeAnswer(query, fixture, ctx).Ok? && row in CompositeAnswer(query, fixture, ctx).value
    ensures AlignAll(query.queries, query.alignOn, fixture, ctx).Ok?
    ensures from in AlignAll(query.queries, query.alignOn, fixture, ctx).value
    ensures Extended(WithDefaults(from, Aliases(query.queries, ctx)), CompositeMetrics(query, ctx), ctx.registry) ==
              Ok(row)
  {
    hide AlignAll, ExtendedRows, Sorted, ResolveAll, Aliases, SortedBy, Extended, WithDefaults;
    var aligned := AlignAll(query.queries, query.alignOn, fixture, ctx).value;
    var ordered, aliases := Ordered(aligned, query.alignOn, ctx), Aliases(query.queries, ctx);
    var out := ExtendedRows(ordered, aliases, CompositeMetrics(query, ctx), ctx.registry).value;
    ExtendedRowsKeep(ordered, aliases, CompositeMetrics(query, ctx), ctx.registry, "");
    SortedIsInOrder(out, query.sort, ctx.topics[query.topic], ctx);
    var sorted := Sorted(out, query.sort, ctx.topics[query.topic], ctx).value;
    SameMembers(sorted, out);
    assert row in sorted;
    var i :| 0 <= i < |out| && out[i] == row;
    SortMembers(aligned, KeyOrder(query.alignOn, ctx.byKey));
    from := ordered[i];
    assert from in ordered;
  }

  /** In every row each composite metric reads as its value over that row, from the metrics before it. */
  lemma CompositeRowsShowMetrics(query: CompositeQuery, fixture: seq<FactRow>, ctx: Context, row: ResultRow, k: nat)
    requires CompositeAnswer(query, fixture, ctx).Ok? && row in CompositeAnswer(query, fixture, ctx).value
    requires NamedApart(query, ctx) && k < |CompositeMetrics(query, ctx)|
    ensures ShowsComposite(row, CompositeMetrics(query, ctx), ctx.registry, k)
  {
    hide CompositeAnswer, CompositeMetrics, AlignAll, Extended, ShowsComposite, DistinctNames, ShortNames, Names,
         Aliases;
    var metrics := CompositeMetrics(query, ctx);
    var from := AnswerRowIsExtended(query, fixture, ctx, row);
    forall name | name in ShortNames(metrics)
      ensures name !in WithDefaults(from, Aliases(query.queries, ctx))
    {
      AlignAllLacks(query.queries, query.alignOn, fixture, ctx, name);
      AliasesAreNamed(query.queries, ctx, name);
    }
    ExtendedShowsComposites(WithDefaults(from, Aliases(query.queries, ctx)), metrics, ctx.registry, k);
  }

  lemma {:induction false} ResolvedIsRegistered(names: seq<string>, topic: Topic, registry: Registry)
    requires ResolveAll(names, topic, registry).Ok?
    ensures forall m | m in ResolveAll(names, topic, registry).value :: exists id :: id in registry && registry[id] == m
  {
    hide WithShort;
    if names != [] {
      ResolvedIsRegistered(names[1..], topic, registry);
    }
  }

  /** On an acyclic registry that value is the metric's own meaning, whatever stack the engine carries. */
  lemma CompositeRowsDenote(query: CompositeQuery, fixture: seq<FactRow>, ctx: Context, row: ResultRow, k: nat,
                            rank: map<string, nat>)
    requires CompositeAnswer(query, fixture, ctx).Ok? && row in CompositeAnswer(query, fixture, ctx).value
    requires NamedApart(query, ctx) && k < |CompositeMetrics(query, ctx)|
    requires KeyedById(ctx.registry) && Acyclic(ctx.registry, rank)
    ensures var metrics := CompositeMetrics(query, ctx);
            var m, seen := metrics[k], AsRow(Without(row, ShortNames(metrics[k..])));
            && m.id in ctx.registry && ctx.registry[m.id] == m && Short(m.id) in row
            && var meaning := Denote(m.calculation, m, [seen], ctx.registry, rank, rank[m.id]);
               meaning.Ok? && FromText(row[Short(m.id)]) == Some(meaning.value)
  {
    hide CompositeAnswer, Denote, Eval, Short, FromText, NamedApart, ResolveAll, Acyclic;
    var metrics := CompositeMetrics(query, ctx);
    CompositeRowsShowMetrics(query, fixture, ctx, row, k);
    ResolvedIsRegistered(query.metrics, ctx.topics[query.topic], ctx.registry);
    assert metrics[k] in metrics;
    QueryMetricDenotes(metrics[k].id, [AsRow(Without(row, ShortNames(metrics[k..])))], ctx.registry, rank);
  }
}
