/** Which rows a query asks for, and which a customer window counts. */
module FixtureWindows {
  import opened Wrappers
  import Decimals
  import opened MetricEngine
  import opened FixtureQueries

  const MINUTE_MS := 60 * 1_000

  function During(query: SingleQuery, from: int, until: int): SingleQuery {
    query.(range := Absolute(from, until))
  }

  /** A row's own instant, if its time field is there and reads. */
  function InstantOf(row: Row, query: SingleQuery, ctx: Context): Option<int> {
    if query.timeField in row then ctx.instant(TextOfValue(row[query.timeField])) else None
  }

  /** Adjoining ranges share no row and leave none out; a row is in the millisecond of its instant, and in no other. */
  lemma TimeRangesTile(row: Row, query: SingleQuery, ctx: Context, a: int, b: int, c: int)
    requires a <= b <= c
    ensures InTime(row, During(query, a, c), ctx) <==>
              InTime(row, During(query, a, b), ctx) || InTime(row, During(query, b, c), ctx)
    ensures !(InTime(row, During(query, a, b), ctx) && InTime(row, During(query, b, c), ctx))
    ensures InTime(row, During(query, a, a + 1), ctx) <==> InstantOf(row, query, ctx) == Some(a)
    ensures query.range.Relative? ==> InTime(row, query, ctx)
  {
  }

  /** The rows asked for keep their number: exactly those of the fact, in time, that pass every filter. */
  lemma {:induction false} AskedRowsExactly(fixture: seq<FactRow>, fact: string, query: SingleQuery, ctx: Context,
                                            row: Row)
    ensures multiset(AskedRows(fixture, fact, query, ctx))[row] ==
              if InTime(row, query, ctx) && (forall f | f in query.filters :: Matches(row, f))
              then multiset(fixture)[FactRow(fact, row)] else 0
  {
    hide InTime, Matches;
    if fixture != [] {
      var front, last := fixture[..|fixture| - 1], fixture[|fixture| - 1];
      AskedRowsExactly(front, fact, query, ctx, row);
      assert fixture == front + [last];
    }
  }

  /** A row's group is told by its week and its own cells, an absent or empty one as the empty text. */
  lemma KeysReadTheirCells(row: Row, dimensions: seq<string>, week: Row -> string, d: string)
    requires d in dimensions
    ensures d in KeyOf(row, dimensions, week) && KeyOf(row, dimensions, week).Keys == set x | x in dimensions
    ensures var text := KeyOf(row, dimensions, week)[d];
            if d == "calendar_week" then text == week(row)
            else if d !in row || row[d] == Null then text == ""
            else text == TextOfValue(row[d])
  {
  }

  // ---------------------------------------------------------------- customer windows

  predicate Active(metric: MetricContract) { metric.id == "customers.active_customers" }

  predicate Lapsed(metric: MetricContract) { metric.id == "customers.lapsed_customers" }

  /** Every customer with a readable last order is active or lapsed over the same days, and never both. */
  lemma ActiveOrLapsed(row: Row, active: MetricContract, lapsed: MetricContract, range: Range, ctx: Context)
    requires Active(active) && Lapsed(lapsed) && range.Absolute?
    requires WindowDays(active, ctx.parameters) == WindowDays(lapsed, ctx.parameters)
    ensures ctx.instant(Cell(row, "last_order_at", "")).Some? ==>
              (InWindow(row, active, range, ctx) <==> !InWindow(row, lapsed, range, ctx))
    ensures ctx.instant(Cell(row, "last_order_at", "")).None? ==>
              !InWindow(row, active, range, ctx) && !InWindow(row, lapsed, range, ctx)
  {
  }

  /** Unless the tenant says otherwise, active are the orders of the last 90 days, lapsed those older than 180. */
  lemma UsualWindows(row: Row, metric: MetricContract, range: Range, ctx: Context, at: int)
    requires range.Absolute? && ctx.instant(Cell(row, "last_order_at", "")) == Some(at)
    requires ctx.parameters == map[]
    ensures Active(metric) ==> (InWindow(row, metric, range, ctx) <==> range.until - at <= 90 * 24 * 60 * MINUTE_MS)
    ensures Lapsed(metric) ==> (InWindow(row, metric, range, ctx) <==> range.until - at > 180 * 24 * 60 * MINUTE_MS)
    ensures !Active(metric) && !Lapsed(metric) ==> InWindow(row, metric, range, ctx)
  {
  }

  /** The tenant's own days count for the window they are named for. */
  lemma TenantWindows(metric: MetricContract, days: int)
    ensures Active(metric) ==> WindowDays(metric, map["active_customer_days" := days]) == days
    ensures Lapsed(metric) ==> WindowDays(metric, map["lapsed_customer_days" := days]) == days
    ensures Active(metric) ==> WindowDays(metric, map["lapsed_customer_days" := days]) == 90
    ensures Lapsed(metric) ==> WindowDays(metric, map["active_customer_days" := days]) == 180
  {
  }

  /** A customer window needs an absolute range and between one day and 3660. */
  lemma WindowNeeds(metric: MetricContract, range: Range, ctx: Context)
    ensures WindowFault(metric, range, ctx).None? <==>
              (Active(metric) || Lapsed(metric) ==> range.Absolute? && 1 <= WindowDays(metric, ctx.parameters) <= 3_660)
  {
  }

  // ---------------------------------------------------------------- names

  /** A full name resolves to itself; a short one to the topic's only metric of that name, if there is just one. */
  lemma ResolvesExactly(name: string, topic: Topic, registry: Registry, id: string)
    requires id in registry
    ensures '.' in name ==> (Resolve(name, topic, registry) == Ok(registry[id]) <==>
                              name in registry && registry[name] == registry[id])
    ensures '.' !in name && multiset(topic.metrics)[id] == 1 && Short(id) == name
            && (forall other | other in topic.metrics && Short(other) == name :: other == id) ==>
              Resolve(name, topic, registry) == Ok(registry[id])
    ensures '.' !in name && Resolve(name, topic, registry).Ok? ==>
              exists other | other in topic.metrics ::
                Short(other) == name && other in registry && registry[other] == Resolve(name, topic, registry).value
    ensures '.' !in name && (forall other | other in topic.metrics :: Short(other) != name) ==>
              Resolve(name, topic, registry) == Err(UnknownMetric(name))
  {
    WithShortHolds(topic.metrics, name);
    var ids := WithShort(topic.metrics, name);
    assert ids != [] ==> ids[0] in ids;
    if '.' !in name && multiset(topic.metrics)[id] == 1 && Short(id) == name
       && forall other | other in topic.metrics && Short(other) == name :: other == id {
      OnlyOne(topic.metrics, name, id);
    }
  }

  lemma {:induction false} WithShortHolds(ids: seq<string>, name: string)
    ensures forall id :: id in WithShort(ids, name) <==> id in ids && Short(id) == name
  {
    hide Short;
    if ids != [] {
      WithShortHolds(ids[1..], name);
      assert ids == [ids[0]] + ids[1..];
    }
  }

  lemma {:induction false} OnlyOne(ids: seq<string>, name: string, id: string)
    requires forall other | other in ids && Short(other) == name :: other == id
    requires Short(id) == name
    ensures |WithShort(ids, name)| == multiset(ids)[id]
    ensures forall other | other in WithShort(ids, name) :: other == id
  {
    hide Short;
    WithShortHolds(ids, name);
    if ids != [] {
      assert ids == [ids[0]] + ids[1..];
      OnlyOne(ids[1..], name, id);
    }
  }

  /** The short name is what follows the first point. */
  lemma ShortNameFollowsPoint(topic: string, name: string)
    requires '.' !in topic
    ensures Short(topic + "." + name) == name && Short(topic) == topic
  {
    FirstPoint(topic, "." + name);
    FirstPoint(topic, "");
    assert topic + "" == topic && topic + "." + name == topic + ("." + name);
  }

  lemma {:induction false} FirstPoint(topic: string, rest: string)
    requires '.' !in topic && (rest == "" || rest[0] == '.')
    ensures Decimals.PointAt(topic + rest) == |topic|
  {
    if topic == "" {
      assert topic + rest == rest;
    } else {
      assert (topic + rest)[1..] == topic[1..] + rest && topic[0] in topic;
      FirstPoint(topic[1..], rest);
    }
  }
}
