/** Composite answers: each alignment key once, and every component's total kept. */
module FixtureAlignment {
  import opened Wrappers
  import opened Numerals
  import opened Decimals
  import opened MetricEngine
  import opened StableSort
  import opened FixtureQueries
  import opened FixtureTotals
  import opened FixtureAnswers

  // ---------------------------------------------------------------- one aligned row per key

  ghost predicate DistinctKeys(rows: seq<ResultRow>, alignOn: seq<string>) {
    forall i, j | 0 <= i < j < |rows| :: AlignKey(rows[i], alignOn) != AlignKey(rows[j], alignOn)
  }

  ghost predicate FullyKeyed(rows: seq<ResultRow>, alignOn: seq<string>) {
    forall row | row in rows :: forall d | d in alignOn :: d in row
  }

  ghost function KeySet(rows: seq<ResultRow>, alignOn: seq<string>): set<ResultRow> {
    set row | row in rows :: AlignKey(row, alignOn)
  }

  lemma AddingPartsKeepsKey(current: ResultRow, row: ResultRow, alignOn: seq<string>)
    ensures AlignKey(current + Components(row, alignOn), alignOn) == AlignKey(current, alignOn)
  {
  }

  lemma KeyOfKey(row: ResultRow, alignOn: seq<string>)
    ensures AlignKey(AlignKey(row, alignOn), alignOn) == AlignKey(row, alignOn)
  {
  }

  lemma AlignRowKeepsKeys(aligned: seq<ResultRow>, row: ResultRow, alignOn: seq<string>)
    requires DistinctKeys(aligned, alignOn) && FullyKeyed(aligned, alignOn) && AlignRow(aligned, row, alignOn).Ok?
    ensures var out := AlignRow(aligned, row, alignOn).value;
            DistinctKeys(out, alignOn) && FullyKeyed(out, alignOn)
    ensures KeySet(AlignRow(aligned, row, alignOn).value, alignOn) ==
              KeySet(aligned, alignOn) + {AlignKey(row, alignOn)}
  {
    hide AlignKey, Components, FullyKeyed, KeySet;
    var key := AlignKey(row, alignOn);
    var i := AlignPosition(aligned, key, alignOn);
    var current := if i < |aligned| then aligned[i] else key;
    AddingPartsKeepsKey(current, row, alignOn);
    KeyOfKey(row, alignOn);
    var out := AlignRow(aligned, row, alignOn).value;
    SameKeys(aligned, out, i, key, alignOn);
    AlignRowStaysKeyed(aligned, row, alignOn);
  }

  lemma AlignRowStaysKeyed(aligned: seq<ResultRow>, row: ResultRow, alignOn: seq<string>)
    requires FullyKeyed(aligned, alignOn) && AlignRow(aligned, row, alignOn).Ok?
    ensures FullyKeyed(AlignRow(aligned, row, alignOn).value, alignOn)
  {
    hide Components;
    var i := AlignPosition(aligned, AlignKey(row, alignOn), alignOn);
    var out := AlignRow(aligned, row, alignOn).value;
    forall other | other in out
      ensures forall d | d in alignOn :: d in other
    {
      var j :| 0 <= j < |out| && out[j] == other;
      assert j < |aligned| ==> aligned[j] in aligned;
    }
  }

  lemma SameKeys(aligned: seq<ResultRow>, out: seq<ResultRow>, i: nat, key: ResultRow, alignOn: seq<string>)
    requires i <= |aligned| && |out| == (if i == |aligned| then i + 1 else |aligned|)
    requires AlignKey(out[i], alignOn) == key && (i < |aligned| ==> AlignKey(aligned[i], alignOn) == key)
    requires forall j | 0 <= j < |aligned| && j != i :: out[j] == aligned[j]
    ensures KeySet(out, alignOn) == KeySet(aligned, alignOn) + {key}
  {
    hide AlignKey;
    forall k
      ensures k in KeySet(out, alignOn) <==> k in KeySet(aligned, alignOn) + {key}
    {
      if k in KeySet(out, alignOn) {
        var j :| 0 <= j < |out| && AlignKey(out[j], alignOn) == k;
        assert j == i || aligned[j] in aligned;
      }
      if k == key {
        assert out[i] in out;
      } else if k in KeySet(aligned, alignOn) {
        var j :| 0 <= j < |aligned| && AlignKey(aligned[j], alignOn) == k;
        assert out[j] in out;
      }
    }
  }

  // ---------------------------------------------------------------- totals through alignment

  lemma {:induction false} UpdatedTotal(rows: seq<ResultRow>, i: nat, row: ResultRow, field: string)
    requires i < |rows|
    ensures TotalAmount(rows[i := row], field) == TotalAmount(rows, field) - Amount(rows[i], field) + Amount(row, field)
  {
    hide Amount;
    var front := rows[..|rows| - 1];
    if i == |rows| - 1 {
      assert rows[i := row][..i] == front;
    } else {
      assert rows[i := row][..|rows| - 1] == front[i := row];
      UpdatedTotal(front, i, row, field);
    }
  }

  lemma JoinedAmount(current: ResultRow, row: ResultRow, alignOn: seq<string>, field: string)
    requires field !in alignOn && current.Keys * Components(row, alignOn).Keys == {}
    ensures Amount(current + Components(row, alignOn), field) == Amount(current, field) + Amount(row, field)
  {
    hide FromText;
    assert field in Components(row, alignOn) <==> field in row;
    assert field in current && field in Components(row, alignOn) ==>
           field in current.Keys * Components(row, alignOn).Keys;
  }

  lemma AlignRowAddsAmount(aligned: seq<ResultRow>, row: ResultRow, alignOn: seq<string>, field: string)
    requires field !in alignOn && AlignRow(aligned, row, alignOn).Ok?
    ensures TotalAmount(AlignRow(aligned, row, alignOn).value, field) ==
              TotalAmount(aligned, field) + Amount(row, field)
  {
    hide Amount;
    var key := AlignKey(row, alignOn);
    var i := AlignPosition(aligned, key, alignOn);
    var current := if i < |aligned| then aligned[i] else key;
    var joined := current + Components(row, alignOn);
    JoinedAmount(current, row, alignOn, field);
    if i < |aligned| {
      UpdatedTotal(aligned, i, joined, field);
    } else {
      KeyHasNoAmount(row, alignOn, field);
      assert (aligned + [joined])[..|aligned|] == aligned;
    }
  }

  lemma KeyHasNoAmount(row: ResultRow, alignOn: seq<string>, field: string)
    requires field !in alignOn
    ensures Amount(AlignKey(row, alignOn), field) == 0
  {
  }

  lemma {:induction false} AlignRowsKeep(aligned: seq<ResultRow>, rows: seq<ResultRow>, alignOn: seq<string>,
                                         field: string)
    requires DistinctKeys(aligned, alignOn) && FullyKeyed(aligned, alignOn) && AlignRows(aligned, rows, alignOn).Ok?
    ensures var out := AlignRows(aligned, rows, alignOn).value;
            && DistinctKeys(out, alignOn) && FullyKeyed(out, alignOn)
            && KeySet(out, alignOn) == KeySet(aligned, alignOn) + KeySet(rows, alignOn)
            && (field !in alignOn ==> TotalAmount(out, field) == TotalAmount(aligned, field) + TotalAmount(rows, field))
  {
    hide DistinctKeys, FullyKeyed, AlignKey, AlignRow, Amount;
    if rows != [] {
      var front, last := rows[..|rows| - 1], rows[|rows| - 1];
      AlignRowsKeep(aligned, front, alignOn, field);
      var before := AlignRows(aligned, front, alignOn).value;
      AlignRowKeepsKeys(before, last, alignOn);
      assert KeySet(rows, alignOn) == KeySet(front, alignOn) + {AlignKey(last, alignOn)} by {
        assert rows == front + [last];
      }
      if field !in alignOn {
        AlignRowAddsAmount(before, last, alignOn, field);
      }
    }
  }

  /** The components' totals, subquery by subquery. */
  function TotalOfComponents(queries: seq<SingleQuery>, field: string, fixture: seq<FactRow>, ctx: Context): Scaled {
    if queries == [] then 0
    else
      var last := SubqueryAnswer(queries[|queries| - 1], fixture, ctx);
      TotalOfComponents(queries[..|queries| - 1], field, fixture, ctx) +
        if last.Ok? then TotalAmount(last.value, field) else 0
  }

  ghost function ComponentKeys(queries: seq<SingleQuery>, alignOn: seq<string>, fixture: seq<FactRow>,
                               ctx: Context): set<ResultRow> {
    if queries == [] then {}
    else
      var last := SubqueryAnswer(queries[|queries| - 1], fixture, ctx);
      ComponentKeys(queries[..|queries| - 1], alignOn, fixture, ctx) +
        if last.Ok? then KeySet(last.value, alignOn) else {}
  }

  lemma {:induction false} AlignAllKeeps(queries: seq<SingleQuery>, alignOn: seq<string>, fixture: seq<FactRow>,
                                         ctx: Context, field: string)
    requires AlignAll(queries, alignOn, fixture, ctx).Ok?
    ensures var out := AlignAll(queries, alignOn, fixture, ctx).value;
            && DistinctKeys(out, alignOn) && FullyKeyed(out, alignOn)
            && KeySet(out, alignOn) == ComponentKeys(queries, alignOn, fixture, ctx)
            && (field !in alignOn ==> TotalAmount(out, field) == TotalOfComponents(queries, field, fixture, ctx))
  {
    hide SubqueryAnswer, AlignRows, Amount;
    if queries != [] {
      hide KeySet, DistinctKeys, FullyKeyed;
      var front, last := queries[..|queries| - 1], queries[|queries| - 1];
      AlignAllKeeps(front, alignOn, fixture, ctx, field);
      AlignRowsKeep(AlignAll(front, alignOn, fixture, ctx).value, SubqueryAnswer(last, fixture, ctx).value, alignOn,
                    field);
    }
  }

  // ---------------------------------------------------------------- defaults, composite metrics, order

  lemma ZeroTextIsZero()
    ensures FromText(ZERO_TEXT) == Some(0)
  {
    assert TextOf(0) == "0";
    assert Digits(0, 1) == Digits(0, 0) + "0";
    assert Digits(0, 2) == "00" && Digits(0, 3) == "000" && Digits(0, 4) == "0000";
    assert ToText(0) == ZERO_TEXT;
    TextRoundTrip(0);
  }

  lemma DefaultsCountAsZero(row: ResultRow, aliases: set<string>, field: string)
    ensures Amount(WithDefaults(row, aliases), field) == Amount(row, field)
  {
    hide FromText;
    ZeroTextIsZero();
  }

  lemma {:induction false} ExtendedKeeps(row: ResultRow, metrics: seq<MetricContract>, registry: Registry,
                                         field: string)
    requires Extended(row, metrics, registry).Ok? && field !in ShortNames(metrics)
    ensures var out := Extended(row, metrics, registry).value;
            (field in out <==> field in row) && (field in row ==> out[field] == row[field])
  {
    hide Short, Eval, ToText;
    if metrics != [] {
      var front, last := metrics[..|metrics| - 1], metrics[|metrics| - 1];
      assert last in metrics && Short(last.id) in ShortNames(metrics);
      assert forall m | m in front :: m in metrics;
      ExtendedKeeps(row, front, registry, field);
    }
  }

  lemma {:induction false} ExtendedRowsKeep(aligned: seq<ResultRow>, aliases: set<string>, metrics: seq<MetricContract>,
                                            registry: Registry, field: string)
    requires ExtendedRows(aligned, aliases, metrics, registry).Ok?
    ensures var out := ExtendedRows(aligned, aliases, metrics, registry).value;
            && |out| == |aligned|
            && (field !in ShortNames(metrics) ==> TotalAmount(out, field) == TotalAmount(aligned, field))
            && (forall i | 0 <= i < |aligned| ::
                  Extended(WithDefaults(aligned[i], aliases), metrics, registry) == Ok(out[i]))
  {
    hide Extended, WithDefaults, Amount, ShortNames;
    if aligned != [] {
      var front, last := aligned[..|aligned| - 1], aligned[|aligned| - 1];
      ExtendedRowsKeep(front, aliases, metrics, registry, field);
      var before := ExtendedRows(front, aliases, metrics, registry).value;
      var out := ExtendedRows(aligned, aliases, metrics, registry).value;
      assert out[..|before|] == before;
      if field !in ShortNames(metrics) {
        ExtendedAmount(last, aliases, metrics, registry, field);
      }
    }
  }

  lemma ExtendedAmount(row: ResultRow, aliases: set<string>, metrics: seq<MetricContract>, registry: Registry,
                       field: string)
    requires Extended(WithDefaults(row, aliases), metrics, registry).Ok? && field !in ShortNames(metrics)
    ensures Amount(Extended(WithDefaults(row, aliases), metrics, registry).value, field) == Amount(row, field)
  {
    hide Extended, WithDefaults, FromText;
    ExtendedKeeps(WithDefaults(row, aliases), metrics, registry, field);
    DefaultsCountAsZero(row, aliases, field);
  }

  lemma ExtendedKey(row: ResultRow, aliases: set<string>, metrics: seq<MetricContract>, registry: Registry,
                    alignOn: seq<string>)
    requires Extended(WithDefaults(row, aliases), metrics, registry).Ok?
    requires (forall d | d in alignOn :: d in row && d !in ShortNames(metrics))
    ensures AlignKey(Extended(WithDefaults(row, aliases), metrics, registry).value, alignOn) == AlignKey(row, alignOn)
  {
    hide Extended, ShortNames;
    var out := Extended(WithDefaults(row, aliases), metrics, registry).value;
    forall d | d in alignOn
      ensures d in out && out[d] == row[d]
    {
      ExtendedKeeps(WithDefaults(row, aliases), metrics, registry, d);
    }
  }

  lemma KeysAreIndexwise(rows: seq<ResultRow>, out: seq<ResultRow>, alignOn: seq<string>)
    requires |rows| == |out| && forall i | 0 <= i < |rows| :: AlignKey(out[i], alignOn) == AlignKey(rows[i], alignOn)
    requires DistinctKeys(rows, alignOn)
    ensures DistinctKeys(out, alignOn) && KeySet(out, alignOn) == KeySet(rows, alignOn)
  {
    hide AlignKey;
    forall k
      ensures k in KeySet(out, alignOn) <==> k in KeySet(rows, alignOn)
    {
      if k in KeySet(out, alignOn) {
        var i :| 0 <= i < |out| && AlignKey(out[i], alignOn) == k;
        assert rows[i] in rows;
      }
      if k in KeySet(rows, alignOn) {
        var i :| 0 <= i < |rows| && AlignKey(rows[i], alignOn) == k;
        assert out[i] in out;
      }
    }
  }

  lemma {:induction false} DistinctKeysDistinctRows(rows: seq<ResultRow>, row: ResultRow, alignOn: seq<string>)
    requires DistinctKeys(rows, alignOn)
    ensures multiset(rows)[row] <= 1
  {
    hide AlignKey;
    if rows != [] {
      var front, last := rows[..|rows| - 1], rows[|rows| - 1];
      DistinctKeysDistinctRows(front, row, alignOn);
      assert rows == front + [last];
      assert forall i | 0 <= i < |front| :: AlignKey(rows[i], alignOn) != AlignKey(last, alignOn);
    }
  }

  lemma TwiceInMultiset(rows: seq<ResultRow>, i: nat, j: nat)
    requires i < j < |rows| && rows[i] == rows[j]
    ensures multiset(rows)[rows[i]] >= 2
  {
    assert rows == rows[..j] + [rows[j]] + rows[j + 1..];
    assert rows[i] in rows[..j];
  }

  lemma PermutationKeepsKeys(a: seq<ResultRow>, b: seq<ResultRow>, alignOn: seq<string>)
    requires multiset(a) == multiset(b) && DistinctKeys(a, alignOn)
    ensures DistinctKeys(b, alignOn)
  {
    hide AlignKey;
    SameMembers(a, b);
    forall i, j | 0 <= i < j < |b|
      ensures AlignKey(b[i], alignOn) != AlignKey(b[j], alignOn)
    {
      if b[i] == b[j] {
        TwiceInMultiset(b, i, j);
        DistinctKeysDistinctRows(a, b[i], alignOn);
      } else {
        assert b[i] in b && b[j] in b;
        var k, l :| 0 <= k < |a| && 0 <= l < |a| && a[k] == b[i] && a[l] == b[j];
      }
    }
  }

  lemma SameRowsSameKeys(a: seq<ResultRow>, b: seq<ResultRow>, alignOn: seq<string>)
    requires multiset(a) == multiset(b)
    ensures KeySet(a, alignOn) == KeySet(b, alignOn)
  {
    hide AlignKey;
    forall x
      ensures x in a <==> x in b
    {
      assert x in multiset(a) <==> x in multiset(b);
    }
  }

  /** Taking the aligned rows in key order changes neither keys nor totals. */
  lemma OrderedKeeps(aligned: seq<ResultRow>, alignOn: seq<string>, ctx: Context, field: string)
    requires DistinctKeys(aligned, alignOn) && FullyKeyed(aligned, alignOn)
    ensures var ordered := Ordered(aligned, alignOn, ctx);
            && |ordered| == |aligned| && DistinctKeys(ordered, alignOn) && FullyKeyed(ordered, alignOn)
            && KeySet(ordered, alignOn) == KeySet(aligned, alignOn)
            && TotalAmount(ordered, field) == TotalAmount(aligned, field)
  {
    hide DistinctKeys, KeySet, TotalAmount;
    var ordered, order := Ordered(aligned, alignOn, ctx), KeyOrder(alignOn, ctx.byKey);
    SortKeeps(aligned, order);
    SortMembers(aligned, order);
    PermutationKeepsKeys(aligned, ordered, alignOn);
    SameRowsSameKeys(aligned, ordered, alignOn);
    SameRowsSameTotal(aligned, ordered, field);
  }

  // ---------------------------------------------------------------- composite answers

  ghost predicate CompositeUncut(query: CompositeQuery, fixture: seq<FactRow>, ctx: Context) {
    var aligned := AlignAll(query.queries, query.alignOn, fixture, ctx);
    aligned.Ok? && |aligned.value| <= query.limit
  }

  function CompositeMetrics(query: CompositeQuery, ctx: Context): seq<MetricContract> {
    if query.topic !in ctx.topics then []
    else
      var metrics := ResolveAll(query.metrics, ctx.topics[query.topic], ctx.registry);
      if metrics.Ok? then metrics.value else []
  }

  lemma CompositeUnfolds(query: CompositeQuery, fixture: seq<FactRow>, ctx: Context)
    returns (aligned: seq<ResultRow>, ordered: seq<ResultRow>, out: seq<ResultRow>)
    requires CompositeAnswer(query, fixture, ctx).Ok? && CompositeUncut(query, fixture, ctx)
    ensures AlignAll(query.queries, query.alignOn, fixture, ctx) == Ok(aligned)
    ensures ordered == Ordered(aligned, query.alignOn, ctx)
    ensures ExtendedRows(ordered, Aliases(query.queries, ctx), CompositeMetrics(query, ctx), ctx.registry) == Ok(out)
    ensures var answer := CompositeAnswer(query, fixture, ctx).value;
            && multiset(answer) == multiset(out) && (forall row :: row in answer <==> row in out)
            && forall field :: TotalAmount(answer, field) == TotalAmount(out, field)
  {
    hide AlignAll, ExtendedRows, Sorted, ResolveAll, Aliases, SortedBy, TotalAmount;
    aligned := AlignAll(query.queries, query.alignOn, fixture, ctx).value;
    ordered := Ordered(aligned, query.alignOn, ctx);
    out := ExtendedRows(ordered, Aliases(query.queries, ctx), CompositeMetrics(query, ctx), ctx.registry).value;
    SortKeeps(aligned, KeyOrder(query.alignOn, ctx.byKey));
    ExtendedRowsKeep(ordered, Aliases(query.queries, ctx), CompositeMetrics(query, ctx), ctx.registry, "");
    SortedIsInOrder(out, query.sort, ctx.topics[query.topic], ctx);
    SameMembers(CompositeAnswer(query, fixture, ctx).value, out);
  }

  /** Every component's total is kept, an absent part counting as zero, unless a composite metric takes its name. */
  lemma CompositeConservesTotals(query: CompositeQuery, fixture: seq<FactRow>, ctx: Context, field: string)
    requires CompositeAnswer(query, fixture, ctx).Ok? && CompositeUncut(query, fixture, ctx)
    requires field !in query.alignOn && field !in ShortNames(CompositeMetrics(query, ctx))
    ensures TotalAmount(CompositeAnswer(query, fixture, ctx).value, field) ==
              TotalOfComponents(query.queries, field, fixture, ctx)
  {
    hide CompositeAnswer, AlignAll, ExtendedRows, Ordered, CompositeMetrics, Aliases, TotalAmount, ShortNames,
         CompositeUncut, TotalOfComponents, DistinctKeys, FullyKeyed, KeySet, ComponentKeys;
    var aligned, ordered, out := CompositeUnfolds(query, fixture, ctx);
    AlignAllKeeps(query.queries, query.alignOn, fixture, ctx, field);
    OrderedKeeps(aligned, query.alignOn, ctx, field);
    ExtendedRowsKeep(ordered, Aliases(query.queries, ctx), CompositeMetrics(query, ctx), ctx.registry, field);
  }

  /** Each alignment key that any component has appears in exactly one row, and no other key appears. */
  lemma CompositeHasEachKeyOnce(query: CompositeQuery, fixture: seq<FactRow>, ctx: Context)
    requires CompositeAnswer(query, fixture, ctx).Ok? && CompositeUncut(query, fixture, ctx)
    requires forall d | d in query.alignOn :: d !in ShortNames(CompositeMetrics(query, ctx))
    ensures DistinctKeys(CompositeAnswer(query, fixture, ctx).value, query.alignOn)
    ensures KeySet(CompositeAnswer(query, fixture, ctx).value, query.alignOn) ==
              ComponentKeys(query.queries, query.alignOn, fixture, ctx)
  {
    hide CompositeAnswer, AlignAll, ExtendedRows, Ordered, CompositeMetrics, Aliases, TotalAmount, ShortNames,
         CompositeUncut, TotalOfComponents, DistinctKeys, KeySet, ComponentKeys, Extended, WithDefaults, AlignKey;
    var aligned, ordered, out := CompositeUnfolds(query, fixture, ctx);
    var aliases, metrics := Aliases(query.queries, ctx), CompositeMetrics(query, ctx);
    AlignAllKeeps(query.queries, query.alignOn, fixture, ctx, "");
    OrderedKeeps(aligned, query.alignOn, ctx, "");
    ExtendedRowsKeep(ordered, aliases, metrics, ctx.registry, "");
    forall i | 0 <= i < |ordered|
      ensures AlignKey(out[i], query.alignOn) == AlignKey(ordered[i], query.alignOn)
    {
      assert ordered[i] in ordered;
      ExtendedKey(ordered[i], aliases, metrics, ctx.registry, query.alignOn);
    }
    KeysAreIndexwise(ordered, out, query.alignOn);
    PermutationKeepsKeys(out, CompositeAnswer(query, fixture, ctx).value, query.alignOn);
    SameRowsSameKeys(CompositeAnswer(query, fixture, ctx).value, out, query.alignOn);
  }

  lemma {:induction false} ExtendedHasAll(row: ResultRow, metrics: seq<MetricContract>, registry: Registry)
    requires Extended(row, metrics, registry).Ok?
    ensures var out := Extended(row, metrics, registry).value; row.Keys <= out.Keys && ShortNames(metrics) <= out.Keys
  {
    hide Short, Eval, ToText;
    if metrics != [] {
      var front, last := metrics[..|metrics| - 1], metrics[|metrics| - 1];
      ExtendedHasAll(row, front, registry);
      assert forall m | m in metrics :: m == last || m in front;
    }
  }

  /** Every row shows every component and every composite metric; a part that was missing reads as zero. */
  lemma CompositeRowsAreComplete(query: CompositeQuery, fixture: seq<FactRow>, ctx: Context)
    requires CompositeAnswer(query, fixture, ctx).Ok? && CompositeUncut(query, fixture, ctx)
    ensures forall row | row in CompositeAnswer(query, fixture, ctx).value ::
              Aliases(query.queries, ctx) <= row.Keys && ShortNames(CompositeMetrics(query, ctx)) <= row.Keys
  {
    hide CompositeAnswer, AlignAll, ExtendedRows, Ordered, CompositeMetrics, Aliases, ShortNames, CompositeUncut,
         Extended;
    var aligned, ordered, out := CompositeUnfolds(query, fixture, ctx);
    var aliases, metrics := Aliases(query.queries, ctx), CompositeMetrics(query, ctx);
    ExtendedRowsKeep(ordered, aliases, metrics, ctx.registry, "");
    forall row | row in CompositeAnswer(query, fixture, ctx).value
      ensures aliases <= row.Keys && ShortNames(metrics) <= row.Keys
    {
      var i :| 0 <= i < |out| && out[i] == row;
      ExtendedHasAll(WithDefaults(ordered[i], aliases), metrics, ctx.registry);
    }
  }

  // ---------------------------------------------------------------- from fixture rows to composite rows

  predicate Names(query: SingleQuery, field: string, ctx: Context) {
    field in query.dimensions || (SingleMetrics(query, ctx).Ok? && field in ShortNames(SingleMetrics(query, ctx).value))
  }

  lemma {:induction false} UnnamedStaysOut(group: Group, metrics: seq<MetricContract>, range: Range, ctx: Context,
                                           field: string)
    requires MeasureAll(group, metrics, range, ctx).Ok? && field !in group.dimensions && field !in ShortNames(metrics)
    ensures field !in MeasureAll(group, metrics, range, ctx).value
  {
    hide Short, Measure, ToText;
    if metrics != [] {
      var front, last := metrics[..|metrics| - 1], metrics[|metrics| - 1];
      assert last in metrics && Short(last.id) in ShortNames(metrics);
      assert forall m | m in front :: m in metrics;
      UnnamedStaysOut(group, front, range, ctx, field);
    }
  }

  lemma {:induction false} UnnamedTotalsZero(groups: seq<Group>, metrics: seq<MetricContract>, range: Range,
                                             ctx: Context, field: string)
    requires MeasureGroups(groups, metrics, range, ctx).Ok? && field !in ShortNames(metrics)
    requires forall g | g in groups :: field !in g.dimensions
    ensures TotalAmount(MeasureGroups(groups, metrics, range, ctx).value, field) == 0
  {
    hide MeasureAll, ShortNames, FromText;
    if groups != [] {
      var front, last := groups[..|groups| - 1], groups[|groups| - 1];
      UnnamedTotalsZero(front, metrics, range, ctx, field);
      assert last in groups;
      UnnamedStaysOut(last, metrics, range, ctx, field);
      var before := MeasureGroups(front, metrics, range, ctx).value;
      assert (before + [MeasureAll(last, metrics, range, ctx).value])[..|before|] == before;
    }
  }

  lemma {:induction false} GroupKeysAreDimensions(rows: seq<Row>, dimensions: seq<string>, week: Row -> string)
    ensures forall g | g in Grouped(rows, dimensions, week) :: forall d :: d in g.dimensions <==> d in dimensions
  {
    if rows != [] {
      var front, last := rows[..|rows| - 1], rows[|rows| - 1];
      GroupKeysAreDimensions(front, dimensions, week);
      var before, key := Grouped(front, dimensions, week), KeyOf(last, dimensions, week);
      var groups := Joined(before, key, last);
      forall g | g in groups
        ensures g in before || g.dimensions == key
      {
        var j :| 0 <= j < |groups| && groups[j] == g;
        assert j < |before| && j != Position(before, key) ==> groups[j] == before[j];
      }
    }
  }

  lemma UnnamedComponentIsZero(query: SingleQuery, fixture: seq<FactRow>, ctx: Context, field: string)
    requires SubqueryAnswer(query, fixture, ctx).Ok? && !Names(query, field, ctx)
    requires Uncut(query.(sort := [], limit := SUBQUERY_LIMIT), fixture, ctx)
    ensures TotalAmount(SubqueryAnswer(query, fixture, ctx).value, field) == 0
  {
    hide ShortNames, MeasureGroups, SortedBy, Amount, AskedRows, Grouped, ResolveAll, Facts;
    var sub := query.(sort := [], limit := SUBQUERY_LIMIT);
    var metrics := SingleMetrics(query, ctx).value;
    assert SingleMetrics(sub, ctx) == SingleMetrics(query, ctx);
    FactIsShared(metrics);
    var groups := SingleGroups(sub, metrics, fixture, ctx);
    SortMembers(Groups(AskedRows(fixture, metrics[0].baseFact, sub, ctx), sub.dimensions, ctx.week),
                GroupOrder(ctx.byKey));
    GroupKeysAreDimensions(AskedRows(fixture, metrics[0].baseFact, sub, ctx), sub.dimensions, ctx.week);
    UnnamedTotalsZero(groups, metrics, sub.range, ctx, field);
    GroupsMeasured(groups, metrics, sub.range, ctx);
  }

  lemma {:induction false} GroupsMeasured(groups: seq<Group>, metrics: seq<MetricContract>, range: Range, ctx: Context)
    requires MeasureGroups(groups, metrics, range, ctx).Ok?
    ensures |MeasureGroups(groups, metrics, range, ctx).value| == |groups|
  {
    hide MeasureAll;
    if groups != [] {
      GroupsMeasured(groups[..|groups| - 1], metrics, range, ctx);
    }
  }

  lemma {:induction false} AlignedSubqueriesAnswer(queries: seq<SingleQuery>, alignOn: seq<string>,
                                                   fixture: seq<FactRow>, ctx: Context)
    requires AlignAll(queries, alignOn, fixture, ctx).Ok?
    ensures forall q | q in queries :: SubqueryAnswer(q, fixture, ctx).Ok?
  {
    hide SubqueryAnswer, AlignRows;
    if queries != [] {
      AlignedSubqueriesAnswer(queries[..|queries| - 1], alignOn, fixture, ctx);
      assert queries == queries[..|queries| - 1] + [queries[|queries| - 1]];
    }
  }

  lemma {:induction false} OnlyOneComponent(queries: seq<SingleQuery>, i: nat, field: string, fixture: seq<FactRow>,
                                            ctx: Context)
    requires forall q | q in queries ::
               SubqueryAnswer(q, fixture, ctx).Ok? && Uncut(q.(sort := [], limit := SUBQUERY_LIMIT), fixture, ctx)
    requires forall j | 0 <= j < |queries| && j != i :: !Names(queries[j], field, ctx)
    ensures TotalOfComponents(queries, field, fixture, ctx) ==
              if i < |queries| then TotalAmount(SubqueryAnswer(queries[i], fixture, ctx).value, field) else 0
  {
    hide SubqueryAnswer, Uncut, Names, TotalAmount;
    if queries != [] {
      var front, last := queries[..|queries| - 1], queries[|queries| - 1];
      OnlyOneComponent(front, i, field, fixture, ctx);
      assert last in queries;
      if i != |queries| - 1 {
        UnnamedComponentIsZero(last, fixture, ctx, field);
      }
    }
  }

  /**
   * End to end: when no limit cuts rows and only subquery i names an additive metric, the composite rows add up to
   * that metric over the fixture rows, ungrouped and unaligned.
   */
  lemma CompositeAddsUpToFixture(query: CompositeQuery, fixture: seq<FactRow>, ctx: Context, i: nat, k: nat)
    requires CompositeAnswer(query, fixture, ctx).Ok? && CompositeUncut(query, fixture, ctx)
    requires i < |query.queries|
    requires forall q | q in query.queries :: Uncut(q.(sort := [], limit := SUBQUERY_LIMIT), fixture, ctx)
    requires SingleMetrics(query.queries[i], ctx).Ok?
    requires var metrics := SingleMetrics(query.queries[i], ctx).value;
             && k < |metrics| && Shows(metrics, k, Short(metrics[k].id)) && Additive(metrics[k], ctx.registry)
             && metrics != []
             && (SingleGroups(query.queries[i], metrics, fixture, ctx) != [] ||
                 WindowFault(metrics[k], query.queries[i].range, ctx).None?)
    requires var field := Short(SingleMetrics(query.queries[i], ctx).value[k].id);
             && field !in query.alignOn && field !in ShortNames(CompositeMetrics(query, ctx))
             && forall j | 0 <= j < |query.queries| && j != i :: !Names(query.queries[j], field, ctx)
    ensures Ungrouped(query.queries[i], k, fixture, ctx).Ok?
    ensures TotalAmount(CompositeAnswer(query, fixture, ctx).value,
                        Short(SingleMetrics(query.queries[i], ctx).value[k].id)) ==
              Ungrouped(query.queries[i], k, fixture, ctx).value
  {
    hide CompositeAnswer, AlignAll, CompositeMetrics, TotalAmount, ShortNames, Uncut, Names, Measure, Groups,
         SingleAnswer, Short, WindowFault, ResolveAll, TotalOfComponents;
    var sub := query.queries[i];
    var uncut := sub.(sort := [], limit := SUBQUERY_LIMIT);
    var field := Short(SingleMetrics(sub, ctx).value[k].id);
    var aligned, ordered, out := CompositeUnfolds(query, fixture, ctx);
    AlignedSubqueriesAnswer(query.queries, query.alignOn, fixture, ctx);
    CompositeConservesTotals(query, fixture, ctx, field);
    OnlyOneComponent(query.queries, i, field, fixture, ctx);
    LimitLeavesRows(sub, fixture, ctx);
    SingleQueryConservesTotals(uncut, fixture, ctx, k);
  }

  lemma {:induction false} AskedRowsIgnoreLimit(fixture: seq<FactRow>, fact: string, query: SingleQuery, ctx: Context)
    ensures AskedRows(fixture, fact, query.(sort := [], limit := SUBQUERY_LIMIT), ctx) ==
              AskedRows(fixture, fact, query, ctx)
  {
    if fixture != [] {
      AskedRowsIgnoreLimit(fixture[..|fixture| - 1], fact, query, ctx);
    }
  }

  lemma LimitLeavesRows(query: SingleQuery, fixture: seq<FactRow>, ctx: Context)
    requires SingleMetrics(query, ctx).Ok? && SingleMetrics(query, ctx).value != []
    ensures var sub, metrics := query.(sort := [], limit := SUBQUERY_LIMIT), SingleMetrics(query, ctx).value;
            && SingleMetrics(sub, ctx) == SingleMetrics(query, ctx)
            && SingleGroups(sub, metrics, fixture, ctx) == SingleGroups(query, metrics, fixture, ctx)
            && AskedRows(fixture, metrics[0].baseFact, sub, ctx) == AskedRows(fixture, metrics[0].baseFact, query, ctx)
  {
    hide Groups, SortedBy;
    AskedRowsIgnoreLimit(fixture, SingleMetrics(query, ctx).value[0].baseFact, query, ctx);
  }
}
