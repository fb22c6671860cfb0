/**
 * The metric evaluator of the fixture engine: a calculation tree over rows, with references to other metrics
 * followed recursively and a mutable stack that stops cycles.
 */
module MetricEngine {
  import opened Wrappers
  import opened Numerals
  import opened Decimals

  datatype Value = Null | Text(s: string) | Number(n: int) | Bool(b: bool)

  /** A row: a field that is not a key is `undefined`. */
  type Row = map<string, Value>

  datatype FilterOp = IsNull | IsNotNull | Eq | Neq | In | NotIn | GreaterThan | AtLeast | LessThan | AtMost

  datatype Filter = Filter(field: string, op: FilterOp, values: seq<Value>)

  datatype AggregateOp = Sum | Avg | Count | CountDistinct | LastValue | Min | Max

  datatype Calculation =
    | Literal(value: string)
    | Field(field: string)
    | Metric(name: string)
    | Add(left: Calculation, right: Calculation)
    | Subtract(left: Calculation, right: Calculation)
    | Multiply(left: Calculation, right: Calculation)
    | Divide(left: Calculation, right: Calculation)
    | Conditional(condition: Filter, chosen: Calculation, otherwise: Calculation)
    | Aggregate(op: AggregateOp, column: Option<string>, filter: Option<Filter>)

  datatype MetricContract = MetricContract(id: string, baseFact: string, calculation: Calculation, filters: seq<Filter>,
                                           defaultTime: string)

  type Registry = map<string, MetricContract>

  datatype EvalError = InvalidDependency(name: string) | InvalidDecimal(text: string)

  type Outcome = Result<Scaled, EvalError>

  // ---------------------------------------------------------------- rows, texts and filters

  function IntText(n: int): string { if n < 0 then "-" + TextOf(-n) else TextOf(n) }

  function TextOfValue(v: Value): string {
    match v
    case Null => "null"
    case Text(s) => s
    case Number(n) => IntText(n)
    case Bool(b) => if b then "true" else "false"
  }

  /** `String(row[field] ?? fallback)`. */
  function Cell(row: Row, field: string, fallback: string): string {
    if field !in row || row[field].Null? then fallback else TextOfValue(row[field])
  }

  /** `Number(value)` on the values that occur: None is NaN. */
  function NumberOf(v: Value): Option<Scaled> {
    match v
    case Null => Some(0)
    case Text(s) => if Trim(s) == "" then Some(0) else FromText(s)
    case Number(n) => Some(n * SCALE)
    case Bool(b) => Some(if b then SCALE else 0)
  }

  function Compare(row: Row, filter: Filter, holds: (int, int) -> bool): bool {
    filter.field in row && filter.values != [] &&
    var left, right := NumberOf(row[filter.field]), NumberOf(filter.values[0]);
    left.Some? && right.Some? && holds(left.value, right.value)
  }

  predicate Matches(row: Row, filter: Filter) {
    var present := filter.field in row;
    match filter.op
    case IsNull => !present || row[filter.field].Null?
    case IsNotNull => present && !row[filter.field].Null?
    case Eq => if filter.values == [] then !present else present && row[filter.field] == filter.values[0]
    case Neq => !(if filter.values == [] then !present else present && row[filter.field] == filter.values[0])
    case In => present && row[filter.field] in filter.values
    case NotIn => !(present && row[filter.field] in filter.values)
    case GreaterThan => Compare(row, filter, (a, b) => a > b)
    case AtLeast => Compare(row, filter, (a, b) => a >= b)
    case LessThan => Compare(row, filter, (a, b) => a < b)
    case AtMost => Compare(row, filter, (a, b) => a <= b)
  }

  predicate Selected(row: Row, metric: MetricContract, filter: Option<Filter>) {
    && (forall f | f in metric.filters :: Matches(row, f))
    && (filter.Some? ==> Matches(row, filter.value))
  }

  function Select(rows: seq<Row>, metric: MetricContract, filter: Option<Filter>): seq<Row> {
    if rows == [] then []
    else
      var front, last := Select(rows[..|rows| - 1], metric, filter), rows[|rows| - 1];
      if Selected(last, metric, filter) then front + [last] else front
  }

  // ---------------------------------------------------------------- aggregates

  function ReadDecimal(text: string): Outcome {
    match FromText(text)
    case None => Err(InvalidDecimal(text))
    case Some(x) => Ok(x)
  }

  function ColumnText(row: Row, column: Option<string>): string {
    if column.None? then "0" else Cell(row, column.value, "0")
  }

  function SumColumn(rows: seq<Row>, column: Option<string>): Outcome {
    if rows == [] then Ok(0)
    else
      match SumColumn(rows[..|rows| - 1], column)
      case Err(e) => Err(e)
      case Ok(total) =>
        match ReadDecimal(ColumnText(rows[|rows| - 1], column))
        case Err(e) => Err(e)
        case Ok(x) => Ok(total + x)
  }

  function Extreme(rows: seq<Row>, column: Option<string>, least: bool): Outcome
    requires rows != []
  {
    var last := ReadDecimal(ColumnText(rows[|rows| - 1], column));
    if |rows| == 1 then last
    else
      match Extreme(rows[..|rows| - 1], column, least)
      case Err(e) => Err(e)
      case Ok(best) =>
        match last
        case Err(e) => Err(e)
        case Ok(x) => Ok(if (if least then x < best else x > best) then x else best)
  }

  predicate TextLess(a: string, b: string) {
    b != "" && (a == "" || a[0] < b[0] || (a[0] == b[0] && TextLess(a[1..], b[1..])))
  }

  function LatestTime(rows: seq<Row>, field: string): Option<string> {
    if rows == [] then None
    else
      var latest, time := LatestTime(rows[..|rows| - 1], field), Cell(rows[|rows| - 1], field, "");
      if latest.None? || TextLess(latest.value, time) then Some(time) else latest
  }

  function AtTime(rows: seq<Row>, field: string, time: Option<string>): seq<Row> {
    if rows == [] then []
    else
      var front, last := AtTime(rows[..|rows| - 1], field, time), rows[|rows| - 1];
      if Some(Cell(last, field, "")) == time then front + [last] else front
  }

  function DistinctCount(rows: seq<Row>, column: Option<string>): nat {
    if column.Some? then |set row | row in rows :: Cell(row, column.value, "")|
    else |set row | row in rows|
  }

  function Aggregated(op: AggregateOp, column: Option<string>, metric: MetricContract, selected: seq<Row>): Outcome {
    match op
    case Count => Ok(|selected| * SCALE)
    case CountDistinct => Ok(DistinctCount(selected, column) * SCALE)
    case LastValue => SumColumn(AtTime(selected, metric.defaultTime, LatestTime(selected, metric.defaultTime)), column)
    case Sum => SumColumn(selected, column)
    case Avg =>
      if selected == [] then Ok(0)
      else
        (match SumColumn(selected, column)
         case Err(e) => Err(e)
         case Ok(total) => Ok(Decimals.Divide(total, |selected| * SCALE)))
    case Min => if selected == [] then Ok(0) else Extreme(selected, column, true)
    case Max => if selected == [] then Ok(0) else Extreme(selected, column, false)
  }

  // ---------------------------------------------------------------- evaluation

  function Ids(registry: Registry): set<string> {
    set name | name in registry :: registry[name].id
  }

  function Combine(op: (Scaled, Scaled) -> Scaled, left: Outcome, right: Outcome): Outcome {
    match left
    case Err(e) => Err(e)
    case Ok(x) =>
      match right
      case Err(e) => Err(e)
      case Ok(y) => Ok(op(x, y))
  }

  /** What the recursion returns for a stack of metrics in progress. */
  function Eval(c: Calculation, metric: MetricContract, rows: seq<Row>, registry: Registry, stack: set<string>): Outcome
    decreases Ids(registry) - stack, c
  {
    match c
    case Literal(value) => ReadDecimal(value)
    case Field(field) => ReadDecimal(if rows == [] then "0" else Cell(rows[0], field, "0"))
    case Metric(name) =>
      if name !in registry || registry[name].id in stack then Err(InvalidDependency(name))
      else
        var dependency := registry[name];
        assert dependency.id in Ids(registry) - stack;
        Eval(dependency.calculation, dependency, rows, registry, stack + {dependency.id})
    case Add(left, right) =>
      Combine((x, y) => x + y, Eval(left, metric, rows, registry, stack), Eval(right, metric, rows, registry, stack))
    case Subtract(left, right) =>
      Combine((x, y) => x - y, Eval(left, metric, rows, registry, stack), Eval(right, metric, rows, registry, stack))
    case Multiply(left, right) =>
      Combine((x, y) => Decimals.Multiply(x, y), Eval(left, metric, rows, registry, stack),
              Eval(right, metric, rows, registry, stack))
    case Divide(left, right) =>
      (match Eval(right, metric, rows, registry, stack)
       case Err(e) => Err(e)
       case Ok(denominator) =>
         if denominator == 0 then Ok(0)
         else
           match Eval(left, metric, rows, registry, stack)
           case Err(e) => Err(e)
           case Ok(numerator) => Ok(Decimals.Divide(numerator, denominator)))
    case Conditional(condition, chosen, otherwise) =>
      Eval(if rows != [] && Matches(rows[0], condition) then chosen else otherwise, metric, rows, registry, stack)
    case Aggregate(op, column, filter) =>
      Aggregated(op, column, metric, Select(rows, metric, filter))
  }

  /** The mutable set the recursion shares. */
  class MetricStack {
    var ids: set<string>

    constructor (ids: set<string>)
      ensures this.ids == ids
    {
      this.ids := ids;
    }
  }

  /** Terminates on every registry, cyclic ones included, and hands the stack back as it was on every normal return. */
  method Evaluate(c: Calculation, metric: MetricContract, rows: seq<Row>, registry: Registry, stack: MetricStack)
    returns (r: Outcome)
    modifies stack
    ensures r == Eval(c, metric, rows, registry, old(stack.ids))
    ensures r.Ok? ==> stack.ids == old(stack.ids)
    decreases Ids(registry) - stack.ids, c
  {
    hide ReadDecimal, Cell, Matches, Aggregated, Select, Decimals.Multiply, Decimals.Divide;
    if c.Add? || c.Subtract? || c.Multiply? {
      var x := Evaluate(c.left, metric, rows, registry, stack);
      if x.Err? {
        return x;
      }
      var y := Evaluate(c.right, metric, rows, registry, stack);
      if y.Err? {
        return y;
      }
      return Ok(if c.Add? then x.value + y.value
                else if c.Subtract? then x.value - y.value
                else Decimals.Multiply(x.value, y.value));
    }
    match c {
      case Literal(value) =>
        return ReadDecimal(value);
      case Field(field) =>
        return ReadDecimal(if rows == [] then "0" else Cell(rows[0], field, "0"));
      case Metric(name) =>
        if name !in registry || registry[name].id in stack.ids {
          return Err(InvalidDependency(name));
        }
        var dependency := registry[name];
        ghost var before := stack.ids;
        assert dependency.id in Ids(registry) - before;
        stack.ids := stack.ids + {dependency.id};
        r := Evaluate(dependency.calculation, dependency, rows, registry, stack);
        if r.Ok? {
          stack.ids := stack.ids - {dependency.id};
          assert stack.ids == before;
        }
      case Aggregate(op, column, filter) =>
        r := EvaluateAggregate(op, column, filter, metric, rows);
      case Conditional(condition, chosen, otherwise) =>
        if rows != [] && Matches(rows[0], condition) {
          r := Evaluate(chosen, metric, rows, registry, stack);
        } else {
          r := Evaluate(otherwise, metric, rows, registry, stack);
        }
      case Divide(left, right) =>
        var denominator := Evaluate(right, metric, rows, registry, stack);
        if denominator.Err? {
          return denominator;
        }
        if denominator.value == 0 {
          return Ok(0);
        }
        var numerator := Evaluate(left, metric, rows, registry, stack);
        if numerator.Err? {
          return numerator;
        }
        return Ok(Decimals.Divide(numerator.value, denominator.value));
    }
  }

  method EvaluateAggregate(op: AggregateOp, column: Option<string>, filter: Option<Filter>, metric: MetricContract,
                           rows: seq<Row>)
    returns (r: Outcome)
    ensures r == Aggregated(op, column, metric, Select(rows, metric, filter))
  {
    var selected: seq<Row> := [];
    for i := 0 to |rows|
      invariant selected == Select(rows[..i], metric, filter)
    {
      assert rows[..i + 1][..i] == rows[..i];
      if Selected(rows[i], metric, filter) {
        selected := selected + [rows[i]];
      }
    }
    assert rows[..|rows|] == rows;
    r := Aggregated(op, column, metric, selected);
  }
}
