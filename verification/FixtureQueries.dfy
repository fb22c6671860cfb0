/**
 * Single and composite fixture queries: rows grouped by their dimensions and measured metric by metric, and
 * components aligned on shared dimensions after each has been aggregated on its own. A JavaScript Map is a
 * sequence of entries in insertion order.
 */
module FixtureQueries {
  import opened Wrappers
  import opened Decimals
  import opened MetricEngine
  import opened StableSort

  type ResultRow = map<string, string>

  datatype Range = Relative | Absolute(from: int, until: int)

  datatype SortItem = SortItem(metric: string, ascending: bool)

  datatype Topic = Topic(id: string, metrics: seq<string>, composite: bool)

  datatype SingleQuery = SingleQuery(topic: string, metrics: seq<string>, dimensions: seq<string>, filters: seq<Filter>,
                                     timeField: string, range: Range, sort: seq<SortItem>, limit: nat)

  datatype CompositeQuery = CompositeQuery(topic: string, metrics: seq<string>, alignOn: seq<string>,
                                           queries: seq<SingleQuery>, sort: seq<SortItem>, limit: nat)

  datatype FactRow = FactRow(fact: string, values: Row)

  /** The registry, tenant parameters, and three host functions: ISO weeks, date parsing and the text order of keys. */
  datatype Context = Context(registry: Registry, topics: map<string, Topic>, parameters: map<string, int>,
                             week: Row -> string, instant: string -> Option<int>, byKey: (ResultRow, ResultRow) -> int)

  datatype QueryError =
    | UnknownTopic(topic: string)
    | NotComposite(topic: string)
    | UnknownMetric(name: string)
    | MissingMetric(name: string)
    | NotOneFact
    | RangeNotAbsolute(metric: string)
    | InvalidParameter(parameter: string)
    | DuplicateComponent
    | Unsortable
    | Evaluation(cause: EvalError)

  type Rows = Result<seq<ResultRow>, QueryError>

  const DAY_MS := 86_400_000
  const SUBQUERY_LIMIT := 1000
  const ZERO_TEXT := "0.0000"

  // ---------------------------------------------------------------- resolving names

  function Short(id: string): string {
    if PointAt(id) == |id| then id else id[PointAt(id) + 1..]
  }

  function WithShort(ids: seq<string>, name: string): seq<string> {
    if ids == [] then []
    else (if Short(ids[0]) == name then [ids[0]] else []) + WithShort(ids[1..], name)
  }

  function Resolve(name: string, topic: Topic, registry: Registry): Result<MetricContract, QueryError> {
    var ids := if '.' in name then [name] else WithShort(topic.metrics, name);
    if |ids| != 1 then Err(UnknownMetric(name))
    else if ids[0] !in registry then Err(MissingMetric(name))
    else Ok(registry[ids[0]])
  }

  function ResolveAll(names: seq<string>, topic: Topic,
                      registry: Registry): (r: Result<seq<MetricContract>, QueryError>)
    ensures r.Ok? ==> |r.value| == |names|
  {
    if names == [] then Ok([])
    else
      match Resolve(names[0], topic, registry)
      case Err(e) => Err(e)
      case Ok(metric) =>
        match ResolveAll(names[1..], topic, registry)
        case Err(e) => Err(e)
        case Ok(rest) => Ok([metric] + rest)
  }

  // ---------------------------------------------------------------- choosing and grouping rows

  predicate InTime(row: Row, query: SingleQuery, ctx: Context) {
    query.range.Absolute? ==>
      && query.timeField in row
      && var at := ctx.instant(TextOfValue(row[query.timeField]));
         at.Some? && query.range.from <= at.value < query.range.until
  }

  predicate Asked(row: FactRow, fact: string, query: SingleQuery, ctx: Context) {
    row.fact == fact && InTime(row.values, query, ctx) && forall f | f in query.filters :: Matches(row.values, f)
  }

  function AskedRows(fixture: seq<FactRow>, fact: string, query: SingleQuery, ctx: Context): seq<Row> {
    if fixture == [] then []
    else
      var front, last := AskedRows(fixture[..|fixture| - 1], fact, query, ctx), fixture[|fixture| - 1];
      if Asked(last, fact, query, ctx) then front + [last.values] else front
  }

  function DimensionText(row: Row, dimension: string, week: Row -> string): string {
    if dimension == "calendar_week" then week(row) else Cell(row, dimension, "")
  }

  function KeyOf(row: Row, dimensions: seq<string>, week: Row -> string): ResultRow {
    map d | d in dimensions :: DimensionText(row, d, week)
  }

  datatype Group = Group(dimensions: ResultRow, rows: seq<Row>)

  /** Where the group with this key is, or the number of groups. */
  function Position(groups: seq<Group>, key: ResultRow): (i: nat)
    ensures i <= |groups| && (i < |groups| ==> groups[i].dimensions == key)
    ensures forall j | 0 <= j < i :: groups[j].dimensions != key
  {
    if groups == [] || groups[0].dimensions == key then 0 else 1 + Position(groups[1..], key)
  }

  function Joined(groups: seq<Group>, key: ResultRow, row: Row): seq<Group> {
    var i := Position(groups, key);
    if i < |groups| then groups[i := Group(key, groups[i].rows + [row])] else groups + [Group(key, [row])]
  }

  function Grouped(rows: seq<Row>, dimensions: seq<string>, week: Row -> string): seq<Group> {
    if rows == [] then []
    else
      var last := rows[|rows| - 1];
      Joined(Grouped(rows[..|rows| - 1], dimensions, week), KeyOf(last, dimensions, week), last)
  }

  function Groups(rows: seq<Row>, dimensions: seq<string>, week: Row -> string): seq<Group> {
    var groups := Grouped(rows, dimensions, week);
    if dimensions == [] && groups == [] then [Group(map[], [])] else groups
  }

  function GroupOrder(byKey: (ResultRow, ResultRow) -> int): (Group, Group) -> int {
    (a: Group, b: Group) => byKey(a.dimensions, b.dimensions)
  }

  method GroupRows(rows: seq<Row>, dimensions: seq<string>, week: Row -> string) returns (groups: seq<Group>)
    ensures groups == Groups(rows, dimensions, week)
  {
    groups := [];
    for i := 0 to |rows|
      invariant groups == Grouped(rows[..i], dimensions, week)
    {
      assert rows[..i + 1][..i] == rows[..i];
      groups := Joined(groups, KeyOf(rows[i], dimensions, week), rows[i]);
    }
    assert rows[..|rows|] == rows;
    if dimensions == [] && groups == [] {
      groups := [Group(map[], [])];
    }
  }

  // ---------------------------------------------------------------- measuring a group

  predicate WindowMetric(metric: MetricContract) {
    metric.id == "customers.active_customers" || metric.id == "customers.lapsed_customers"
  }

  function WindowDays(metric: MetricContract, parameters: map<string, int>): int {
    var name := WindowParameter(metric);
    if name in parameters then parameters[name]
    else if metric.id == "customers.active_customers" then 90 else 180
  }

  function WindowParameter(metric: MetricContract): string {
    if metric.id == "customers.active_customers" then "active_customer_days" else "lapsed_customer_days"
  }

  function WindowFault(metric: MetricContract, range: Range, ctx: Context): Option<QueryError> {
    if !WindowMetric(metric) then None
    else if range.Relative? then Some(RangeNotAbsolute(metric.id))
    else if !(1 <= WindowDays(metric, ctx.parameters) <= 3660) then Some(InvalidParameter(WindowParameter(metric)))
    else None
  }

  predicate InWindow(row: Row, metric: MetricContract, range: Range, ctx: Context) {
    WindowMetric(metric) && range.Absolute? ==>
      var at := ctx.instant(Cell(row, "last_order_at", ""));
      var cutoff := range.until - WindowDays(metric, ctx.parameters) * DAY_MS;
      at.Some? && if metric.id == "customers.active_customers" then at.value >= cutoff else at.value < cutoff
  }

  function Windowed(rows: seq<Row>, metric: MetricContract, range: Range, ctx: Context): seq<Row> {
    if rows == [] then []
    else
      var front, last := Windowed(rows[..|rows| - 1], metric, range, ctx), rows[|rows| - 1];
      if InWindow(last, metric, range, ctx) then front + [last] else front
  }

  /** The value of one metric over some rows. */
  function Measure(metric: MetricContract, rows: seq<Row>, range: Range, ctx: Context): Result<Scaled, QueryError> {
    match WindowFault(metric, range, ctx)
    case Some(fault) => Err(fault)
    case None =>
      match Eval(metric.calculation, metric, Windowed(rows, metric, range, ctx), ctx.registry, {metric.id})
      case Err(e) => Err(Evaluation(e))
      case Ok(x) => Ok(x)
  }

  function MeasureAll(group: Group, metrics: seq<MetricContract>, range: Range,
                      ctx: Context): Result<ResultRow, QueryError> {
    if metrics == [] then Ok(group.dimensions)
    else
      var last := metrics[|metrics| - 1];
      match MeasureAll(group, metrics[..|metrics| - 1], range, ctx)
      case Err(e) => Err(e)
      case Ok(values) =>
        match Measure(last, group.rows, range, ctx)
        case Err(e) => Err(e)
        case Ok(x) => Ok(values[Short(last.id) := ToText(x)])
  }

  function MeasureGroups(groups: seq<Group>, metrics: seq<MetricContract>, range: Range, ctx: Context): Rows {
    if groups == [] then Ok([])
    else
      match MeasureGroups(groups[..|groups| - 1], metrics, range, ctx)
      case Err(e) => Err(e)
      case Ok(front) =>
        match MeasureAll(groups[|groups| - 1], metrics, range, ctx)
        case Err(e) => Err(e)
        case Ok(row) => Ok(front + [row])
  }

  // ---------------------------------------------------------------- order and limit

  /** The decimal under a field in a total: an absent one counts as zero. */
  function Amount(row: ResultRow, field: string): Scaled {
    if field in row && FromText(row[field]).Some? then FromText(row[field]).value else 0
  }

  /** The decimal a sort reads, absent as zero; None when the text under the field is no decimal. */
  function SortCell(row: ResultRow, field: string): Option<Scaled> {
    FromText(if field in row then row[field] else "0")
  }

  /** Metric by metric, each resolved when it is reached, then by key; None when the comparison throws. */
  function Compared(left: ResultRow, right: ResultRow, sort: seq<SortItem>, topic: Topic, ctx: Context): Option<int> {
    if sort == [] then Some(ctx.byKey(left, right))
    else
      match Resolve(sort[0].metric, topic, ctx.registry)
      case Err(_) => None
      case Ok(metric) =>
        var x, y := SortCell(left, Short(metric.id)), SortCell(right, Short(metric.id));
        if x.None? || y.None? then None
        else if x == y then Compared(left, right, sort[1..], topic, ctx)
        else Some(if (x.value < y.value) == sort[0].ascending then -1 else 1)
  }

  function RowOrder(sort: seq<SortItem>, topic: Topic, ctx: Context): (ResultRow, ResultRow) -> int {
    (a: ResultRow, b: ResultRow) =>
      var c := Compared(a, b, sort, topic, ctx);
      if c.Some? then c.value else 0
  }

  /**
   * Rows that tie in what was compared so far are compared further with one another, so a sort meets an unreadable
   * cell or an unknown metric exactly when some two rows cannot be compared.
   */
  predicate Sortable(rows: seq<ResultRow>, sort: seq<SortItem>, topic: Topic, ctx: Context) {
    forall i, j | 0 <= i < j < |rows| :: Compared(rows[i], rows[j], sort, topic, ctx).Some?
  }

  /** Without anything to sort by the rows stay as they are. */
  function Sorted(rows: seq<ResultRow>, sort: seq<SortItem>, topic: Topic, ctx: Context): Rows {
    if sort == [] then Ok(rows)
    else if Sortable(rows, sort, topic, ctx) then Ok(SortedBy(rows, RowOrder(sort, topic, ctx)))
    else Err(Unsortable)
  }

  function Limited(rows: seq<ResultRow>, limit: nat): seq<ResultRow> {
    if |rows| <= limit then rows else rows[..limit]
  }

  function Presented(rows: Rows, sort: seq<SortItem>, limit: nat, topic: Topic, ctx: Context): Rows {
    match rows
    case Err(e) => Err(e)
    case Ok(out) =>
      match Sorted(out, sort, topic, ctx)
      case Err(e) => Err(e)
      case Ok(sorted) => Ok(Limited(sorted, limit))
  }

  // ---------------------------------------------------------------- single queries

  function Facts(metrics: seq<MetricContract>): set<string> {
    set m | m in metrics :: m.baseFact
  }

  function SingleMetrics(query: SingleQuery, ctx: Context): Result<seq<MetricContract>, QueryError> {
    if query.topic !in ctx.topics then Err(UnknownTopic(query.topic))
    else
      match ResolveAll(query.metrics, ctx.topics[query.topic], ctx.registry)
      case Err(e) => Err(e)
      case Ok(metrics) => if |Facts(metrics)| != 1 then Err(NotOneFact) else Ok(metrics)
  }

  /** One fact only, so any metric's will do. */
  lemma FactIsShared(metrics: seq<MetricContract>)
    requires |Facts(metrics)| == 1
    ensures metrics != [] && Facts(metrics) == {metrics[0].baseFact}
  {
    assert Facts([]) == {};
    assert metrics[0].baseFact in Facts(metrics);
    assert |Facts(metrics) - {metrics[0].baseFact}| == 0;
  }

  /** The groups in the order of their keys, which is the order they are measured in. */
  function SingleGroups(query: SingleQuery, metrics: seq<MetricContract>, fixture: seq<FactRow>,
                        ctx: Context): seq<Group>
    requires metrics != []
  {
    SortedBy(Groups(AskedRows(fixture, metrics[0].baseFact, query, ctx), query.dimensions, ctx.week),
             GroupOrder(ctx.byKey))
  }

  function SingleAnswer(query: SingleQuery, fixture: seq<FactRow>, ctx: Context): Rows {
    match SingleMetrics(query, ctx)
    case Err(e) => Err(e)
    case Ok(metrics) =>
      FactIsShared(metrics);
      Presented(MeasureGroups(SingleGroups(query, metrics, fixture, ctx), metrics, query.range, ctx),
                query.sort, query.limit, ctx.topics[query.topic], ctx)
  }

  method EvaluateMetric(metric: MetricContract, rows: seq<Row>, range: Range, ctx: Context)
    returns (r: Result<Scaled, QueryError>)
    ensures r == Measure(metric, rows, range, ctx)
  {
    match WindowFault(metric, range, ctx) {
      case Some(fault) =>
        return Err(fault);
      case None =>
        var stack := new MetricStack({metric.id});
        var outcome := Evaluate(metric.calculation, metric, Windowed(rows, metric, range, ctx), ctx.registry, stack);
        match outcome {
          case Err(e) => return Err(Evaluation(e));
          case Ok(x) => return Ok(x);
        }
    }
  }

  method EvaluateGroup(group: Group, metrics: seq<MetricContract>, range: Range, ctx: Context)
    returns (r: Result<ResultRow, QueryError>)
    ensures r == MeasureAll(group, metrics, range, ctx)
  {
    var values := group.dimensions;
    for i := 0 to |metrics|
      invariant MeasureAll(group, metrics[..i], range, ctx) == Ok(values)
    {
      assert metrics[..i + 1][..i] == metrics[..i];
      var x := EvaluateMetric(metrics[i], group.rows, range, ctx);
      if x.Err? {
        FirstFaultStays(group, metrics, i + 1, range, ctx);
        return Err(x.error);
      }
      values := values[Short(metrics[i].id) := ToText(x.value)];
    }
    assert metrics[..|metrics|] == metrics;
    r := Ok(values);
  }

  lemma {:induction false} FirstFaultStays(group: Group, metrics: seq<MetricContract>, i: nat, range: Range,
                                           ctx: Context)
    requires i <= |metrics| && MeasureAll(group, metrics[..i], range, ctx).Err?
    ensures MeasureAll(group, metrics, range, ctx) == MeasureAll(group, metrics[..i], range, ctx)
  {
    if i < |metrics| {
      assert metrics[..|metrics| - 1][..i] == metrics[..i];
      FirstFaultStays(group, metrics[..|metrics| - 1], i, range, ctx);
    } else {
      assert metrics[..i] == metrics;
    }
  }

  lemma {:induction false} FirstBadGroupStays(groups: seq<Group>, i: nat, metrics: seq<MetricContract>, range: Range,
                                              ctx: Context)
    requires i <= |groups| && MeasureGroups(groups[..i], metrics, range, ctx).Err?
    ensures MeasureGroups(groups, metrics, range, ctx) == MeasureGroups(groups[..i], metrics, range, ctx)
  {
    if i < |groups| {
      assert groups[..|groups| - 1][..i] == groups[..i];
      FirstBadGroupStays(groups[..|groups| - 1], i, metrics, range, ctx);
    } else {
      assert groups[..i] == groups;
    }
  }

  method EvaluateSingleQuery(query: SingleQuery, fixture: seq<FactRow>, ctx: Context) returns (r: Rows)
    ensures r == SingleAnswer(query, fixture, ctx)
  {
    hide Measure, MeasureAll, AskedRows, Groups, Sorted, ResolveAll, Facts;
    var resolved := SingleMetrics(query, ctx);
    if resolved.Err? {
      return Err(resolved.error);
    }
    var metrics := resolved.value;
    FactIsShared(metrics);
    var unordered := GroupRows(AskedRows(fixture, metrics[0].baseFact, query, ctx), query.dimensions, ctx.week);
    var groups := SortedBy(unordered, GroupOrder(ctx.byKey));
    var output: seq<ResultRow> := [];
    for i := 0 to |groups|
      invariant MeasureGroups(groups[..i], metrics, query.range, ctx) == Ok(output)
    {
      assert groups[..i + 1][..i] == groups[..i];
      var row := EvaluateGroup(groups[i], metrics, query.range, ctx);
      if row.Err? {
        FirstBadGroupStays(groups, i + 1, metrics, query.range, ctx);
        return Err(row.error);
      }
      output := output + [row.value];
    }
    assert groups[..|groups|] == groups;
    r := Presented(Ok(output), query.sort, query.limit, ctx.topics[query.topic], ctx);
  }

  // ---------------------------------------------------------------- composite queries

  function AlignKey(row: ResultRow, alignOn: seq<string>): ResultRow {
    map d | d in alignOn :: if d in row then row[d] else ""
  }

  function KeyOrder(alignOn: seq<string>, byKey: (ResultRow, ResultRow) -> int): (ResultRow, ResultRow) -> int {
    (a: ResultRow, b: ResultRow) => byKey(AlignKey(a, alignOn), AlignKey(b, alignOn))
  }

  function Components(row: ResultRow, alignOn: seq<string>): ResultRow {
    map f | f in row && f !in alignOn :: row[f]
  }

  function AlignPosition(aligned: seq<ResultRow>, key: ResultRow, alignOn: seq<string>): (i: nat)
    ensures i <= |aligned| && (i < |aligned| ==> AlignKey(aligned[i], alignOn) == key)
    ensures forall j | 0 <= j < i :: AlignKey(aligned[j], alignOn) != key
  {
    if aligned == [] || AlignKey(aligned[0], alignOn) == key then 0 else 1 + AlignPosition(aligned[1..], key, alignOn)
  }

  /** Adds the components of one row to the entry with its key; a component that is already there is an error. */
  function AlignRow(aligned: seq<ResultRow>, row: ResultRow, alignOn: seq<string>): Rows {
    var key, parts := AlignKey(row, alignOn), Components(row, alignOn);
    var i := AlignPosition(aligned, key, alignOn);
    var current := if i < |aligned| then aligned[i] else key;
    if current.Keys * parts.Keys != {} then Err(DuplicateComponent)
    else if i < |aligned| then Ok(aligned[i := current + parts])
    else Ok(aligned + [current + parts])
  }

  function AlignRows(aligned: seq<ResultRow>, rows: seq<ResultRow>, alignOn: seq<string>): Rows {
    if rows == [] then Ok(aligned)
    else
      match AlignRows(aligned, rows[..|rows| - 1], alignOn)
      case Err(e) => Err(e)
      case Ok(front) => AlignRow(front, rows[|rows| - 1], alignOn)
  }

  /** A subquery runs unsorted, with its own limit. */
  function SubqueryAnswer(query: SingleQuery, fixture: seq<FactRow>, ctx: Context): Rows {
    SingleAnswer(query.(sort := [], limit := SUBQUERY_LIMIT), fixture, ctx)
  }

  function AlignAll(queries: seq<SingleQuery>, alignOn: seq<string>, fixture: seq<FactRow>, ctx: Context): Rows {
    if queries == [] then Ok([])
    else
      match AlignAll(queries[..|queries| - 1], alignOn, fixture, ctx)
      case Err(e) => Err(e)
      case Ok(front) =>
        match SubqueryAnswer(queries[|queries| - 1], fixture, ctx)
        case Err(e) => Err(e)
        case Ok(rows) => AlignRows(front, rows, alignOn)
  }

  function ShortNames(metrics: seq<MetricContract>): set<string> {
    set m | m in metrics :: Short(m.id)
  }

  /** The components the subqueries name, for those that resolve. */
  function Aliases(queries: seq<SingleQuery>, ctx: Context): set<string> {
    if queries == [] then {}
    else
      var last := SingleMetrics(queries[|queries| - 1], ctx);
      Aliases(queries[..|queries| - 1], ctx) + if last.Ok? then ShortNames(last.value) else {}
  }

  function WithDefaults(row: ResultRow, aliases: set<string>): ResultRow {
    (map a | a in aliases :: ZERO_TEXT) + row
  }

  function AsRow(row: ResultRow): Row {
    map f | f in row :: Text(row[f])
  }

  /** Composite metrics read the aligned row, and those already added to it. */
  function Extended(row: ResultRow, metrics: seq<MetricContract>, registry: Registry): Result<ResultRow, QueryError> {
    if metrics == [] then Ok(row)
    else
      match Extended(row, metrics[..|metrics| - 1], registry)
      case Err(e) => Err(e)
      case Ok(values) =>
        var last := metrics[|metrics| - 1];
        match Eval(last.calculation, last, [AsRow(values)], registry, {last.id})
        case Err(e) => Err(Evaluation(e))
        case Ok(x) => Ok(values[Short(last.id) := ToText(x)])
  }

  function ExtendedRows(aligned: seq<ResultRow>, aliases: set<string>, metrics: seq<MetricContract>,
                        registry: Registry): Rows {
    if aligned == [] then Ok([])
    else
      match ExtendedRows(aligned[..|aligned| - 1], aliases, metrics, registry)
      case Err(e) => Err(e)
      case Ok(front) =>
        match Extended(WithDefaults(aligned[|aligned| - 1], aliases), metrics, registry)
        case Err(e) => Err(e)
        case Ok(row) => Ok(front + [row])
  }

  /** The aligned rows in the order of their keys. */
  function Ordered(aligned: seq<ResultRow>, alignOn: seq<string>, ctx: Context): seq<ResultRow> {
    SortedBy(aligned, KeyOrder(alignOn, ctx.byKey))
  }

  function CompositeAnswer(query: CompositeQuery, fixture: seq<FactRow>, ctx: Context): Rows {
    if query.topic !in ctx.topics then Err(UnknownTopic(query.topic))
    else if !ctx.topics[query.topic].composite then Err(NotComposite(query.topic))
    else
      match AlignAll(query.queries, query.alignOn, fixture, ctx)
      case Err(e) => Err(e)
      case Ok(aligned) =>
        match ResolveAll(query.metrics, ctx.topics[query.topic], ctx.registry)
        case Err(e) => Err(e)
        case Ok(metrics) =>
          var ordered := Ordered(aligned, query.alignOn, ctx);
          Presented(ExtendedRows(ordered, Aliases(query.queries, ctx), metrics, ctx.registry),
                    query.sort, query.limit, ctx.topics[query.topic], ctx)
  }

  method AlignComponent(aligned: seq<ResultRow>, rows: seq<ResultRow>, alignOn: seq<string>) returns (r: Rows)
    ensures r == AlignRows(aligned, rows, alignOn)
  {
    var current := aligned;
    for i := 0 to |rows|
      invariant AlignRows(aligned, rows[..i], alignOn) == Ok(current)
    {
      assert rows[..i + 1][..i] == rows[..i];
      var step := AlignRow(current, rows[i], alignOn);
      if step.Err? {
        FirstClashStays(aligned, rows, i + 1, alignOn);
        return step;
      }
      current := step.value;
    }
    assert rows[..|rows|] == rows;
    r := Ok(current);
  }

  lemma {:induction false} FirstClashStays(aligned: seq<ResultRow>, rows: seq<ResultRow>, i: nat, alignOn: seq<string>)
    requires i <= |rows| && AlignRows(aligned, rows[..i], alignOn).Err?
    ensures AlignRows(aligned, rows, alignOn) == AlignRows(aligned, rows[..i], alignOn)
  {
    if i < |rows| {
      assert rows[..|rows| - 1][..i] == rows[..i];
      FirstClashStays(aligned, rows[..|rows| - 1], i, alignOn);
    } else {
      assert rows[..i] == rows;
    }
  }

  lemma {:induction false} FirstBadSubqueryStays(queries: seq<SingleQuery>, i: nat, alignOn: seq<string>,
                                                 fixture: seq<FactRow>, ctx: Context)
    requires i <= |queries| && AlignAll(queries[..i], alignOn, fixture, ctx).Err?
    ensures AlignAll(queries, alignOn, fixture, ctx) == AlignAll(queries[..i], alignOn, fixture, ctx)
  {
    if i < |queries| {
      assert queries[..|queries| - 1][..i] == queries[..i];
      FirstBadSubqueryStays(queries[..|queries| - 1], i, alignOn, fixture, ctx);
    } else {
      assert queries[..i] == queries;
    }
  }

  method AlignSubqueries(queries: seq<SingleQuery>, alignOn: seq<string>, fixture: seq<FactRow>, ctx: Context)
    returns (r: Rows)
    ensures r == AlignAll(queries, alignOn, fixture, ctx)
  {
    var aligned: seq<ResultRow> := [];
    for i := 0 to |queries|
      invariant AlignAll(queries[..i], alignOn, fixture, ctx) == Ok(aligned)
    {
      assert queries[..i + 1][..i] == queries[..i];
      var rows := EvaluateSingleQuery(queries[i].(sort := [], limit := SUBQUERY_LIMIT), fixture, ctx);
      var step := rows;
      if rows.Ok? {
        step := AlignComponent(aligned, rows.value, alignOn);
      }
      if step.Err? {
        FirstBadSubqueryStays(queries, i + 1, alignOn, fixture, ctx);
        return step;
      }
      aligned := step.value;
    }
    assert queries[..|queries|] == queries;
    r := Ok(aligned);
  }

  method EvaluateCompositeQuery(query: CompositeQuery, fixture: seq<FactRow>, ctx: Context) returns (r: Rows)
    ensures r == CompositeAnswer(query, fixture, ctx)
  {
    if query.topic !in ctx.topics {
      return Err(UnknownTopic(query.topic));
    }
    if !ctx.topics[query.topic].composite {
      return Err(NotComposite(query.topic));
    }
    var aligned := AlignSubqueries(query.queries, query.alignOn, fixture, ctx);
    if aligned.Err? {
      return aligned;
    }
    var metrics := ResolveAll(query.metrics, ctx.topics[query.topic], ctx.registry);
    if metrics.Err? {
      return Err(metrics.error);
    }
    var ordered := Ordered(aligned.value, query.alignOn, ctx);
    var output := ExtendedRows(ordered, Aliases(query.queries, ctx), metrics.value, ctx.registry);
    r := Presented(output, query.sort, query.limit, ctx.topics[query.topic], ctx);
  }
}
