/** What the stack-carrying recursion means, and exactly when a metric reference makes it fail. */
module MetricProofs {
  import opened Wrappers
  import Decimals
  import opened MetricEngine

  // ---------------------------------------------------------------- a denotation without a stack

  /** Every metric a calculation mentions, on any branch. */
  function Mentions(c: Calculation): set<string> {
    match c
    case Metric(name) => {name}
    case Add(left, right) => Mentions(left) + Mentions(right)
    case Subtract(left, right) => Mentions(left) + Mentions(right)
    case Multiply(left, right) => Mentions(left) + Mentions(right)
    case Divide(left, right) => Mentions(left) + Mentions(right)
    case Conditional(_, chosen, otherwise) => Mentions(chosen) + Mentions(otherwise)
    case _ => {}
  }

  ghost predicate Below(c: Calculation, registry: Registry, rank: map<string, nat>, height: nat) {
    forall name | name in Mentions(c) && name in registry :: name in rank && rank[name] < height
  }

  /** No cycle: every metric mentions only metrics of a lower rank. */
  ghost predicate Acyclic(registry: Registry, rank: map<string, nat>) {
    forall name | name in registry :: name in rank && Below(registry[name].calculation, registry, rank, rank[name])
  }

  ghost predicate KeyedById(registry: Registry) {
    forall name | name in registry :: registry[name].id == name
  }

  /** The value of a calculation, metric by metric: what a reference means depends on no one's progress. */
  ghost function Denote(c: Calculation, metric: MetricContract, rows: seq<Row>, registry: Registry,
                        rank: map<string, nat>, height: nat): Outcome
    requires Acyclic(registry, rank) && Below(c, registry, rank, height)
    decreases height, c
  {
    match c
    case Literal(value) => ReadDecimal(value)
    case Field(field) => ReadDecimal(if rows == [] then "0" else Cell(rows[0], field, "0"))
    case Metric(name) =>
      if name !in registry then Err(InvalidDependency(name))
      else Denote(registry[name].calculation, registry[name], rows, registry, rank, rank[name])
    case Add(left, right) =>
      Combine((x, y) => x + y, Denote(left, metric, rows, registry, rank, height),
              Denote(right, metric, rows, registry, rank, height))
    case Subtract(left, right) =>
      Combine((x, y) => x - y, Denote(left, metric, rows, registry, rank, height),
              Denote(right, metric, rows, registry, rank, height))
    case Multiply(left, right) =>
      Combine((x, y) => Decimals.Multiply(x, y), Denote(left, metric, rows, registry, rank, height),
              Denote(right, metric, rows, registry, rank, height))
    case Divide(left, right) =>
      (match Denote(right, metric, rows, registry, rank, height)
       case Err(e) => Err(e)
       case Ok(denominator) =>
         if denominator == 0 then Ok(0)
         else Combine((x, y) => if y == 0 then 0 else Decimals.Divide(x, y),
                      Denote(left, metric, rows, registry, rank, height), Ok(denominator)))
    case Conditional(condition, chosen, otherwise) =>
      if rows != [] && Matches(rows[0], condition) then Denote(chosen, metric, rows, registry, rank, height)
      else Denote(otherwise, metric, rows, registry, rank, height)
    case Aggregate(op, column, filter) => Aggregated(op, column, metric, Select(rows, metric, filter))
  }

  /** On an acyclic registry the cycle stack never shows: the evaluator computes the denotation. */
  lemma {:induction false} EvalIsDenotation(c: Calculation, metric: MetricContract, rows: seq<Row>, registry: Registry,
                                            rank: map<string, nat>, height: nat, stack: set<string>)
    requires KeyedById(registry) && Acyclic(registry, rank) && Below(c, registry, rank, height)
    requires forall name | name in registry && rank[name] < height :: name !in stack
    ensures Eval(c, metric, rows, registry, stack) == Denote(c, metric, rows, registry, rank, height)
    decreases height, c
  {
    match c
    case Metric(name) =>
      if name in registry {
        EvalIsDenotation(registry[name].calculation, registry[name], rows, registry, rank, rank[name], stack + {name});
      }
    case Add(left, right) =>
      EvalIsDenotation(left, metric, rows, registry, rank, height, stack);
      EvalIsDenotation(right, metric, rows, registry, rank, height, stack);
    case Subtract(left, right) =>
      EvalIsDenotation(left, metric, rows, registry, rank, height, stack);
      EvalIsDenotation(right, metric, rows, registry, rank, height, stack);
    case Multiply(left, right) =>
      EvalIsDenotation(left, metric, rows, registry, rank, height, stack);
      EvalIsDenotation(right, metric, rows, registry, rank, height, stack);
    case Divide(left, right) =>
      EvalIsDenotation(left, metric, rows, registry, rank, height, stack);
      EvalIsDenotation(right, metric, rows, registry, rank, height, stack);
    case Conditional(_, chosen, otherwise) =>
      EvalIsDenotation(chosen, metric, rows, registry, rank, height, stack);
      EvalIsDenotation(otherwise, metric, rows, registry, rank, height, stack);
    case _ =>
  }

  /** In particular from the stack a query starts with: the metric itself. */
  lemma QueryMetricDenotes(name: string, rows: seq<Row>, registry: Registry, rank: map<string, nat>)
    requires KeyedById(registry) && Acyclic(registry, rank) && name in registry
    ensures Eval(registry[name].calculation, registry[name], rows, registry, {name}) ==
              Denote(registry[name].calculation, registry[name], rows, registry, rank, rank[name])
  {
    EvalIsDenotation(registry[name].calculation, registry[name], rows, registry, rank, rank[name], {name});
  }

  // ---------------------------------------------------------------- failing references

  /**
   * The metrics referred to at positions the evaluation reaches: not on the branch a condition leaves out, not in a
   * numerator whose denominator is zero or fails, and not beside a left operand that has already failed.
   */
  function Demands(c: Calculation, metric: MetricContract, rows: seq<Row>, registry: Registry,
                   stack: set<string>): set<string> {
    match c
    case Metric(name) => {name}
    case Add(left, right) =>
      Demands(left, metric, rows, registry, stack) +
      (if Eval(left, metric, rows, registry, stack).Ok? then Demands(right, metric, rows, registry, stack) else {})
    case Subtract(left, right) =>
      Demands(left, metric, rows, registry, stack) +
      (if Eval(left, metric, rows, registry, stack).Ok? then Demands(right, metric, rows, registry, stack) else {})
    case Multiply(left, right) =>
      Demands(left, metric, rows, registry, stack) +
      (if Eval(left, metric, rows, registry, stack).Ok? then Demands(right, metric, rows, registry, stack) else {})
    case Divide(left, right) =>
      Demands(right, metric, rows, registry, stack) +
      (match Eval(right, metric, rows, registry, stack)
       case Err(_) => {}
       case Ok(denominator) => if denominator == 0 then {} else Demands(left, metric, rows, registry, stack))
    case Conditional(condition, chosen, otherwise) =>
      if rows != [] && Matches(rows[0], condition) then Demands(chosen, metric, rows, registry, stack)
      else Demands(otherwise, metric, rows, registry, stack)
    case _ => {}
  }

  predicate Unusable(name: string, registry: Registry, stack: set<string>) {
    name !in registry || registry[name].id in stack
  }

  /** A chain of demanded references through usable metrics that ends at an unknown one or one in progress. */
  ghost predicate FaultyPath(path: seq<string>, c: Calculation, metric: MetricContract, rows: seq<Row>,
                             registry: Registry, stack: set<string>)
    decreases |path|
  {
    && path != []
    && path[0] in Demands(c, metric, rows, registry, stack)
    && if Unusable(path[0], registry, stack) then |path| == 1
       else
         var next := registry[path[0]];
         FaultyPath(path[1..], next.calculation, next, rows, registry, stack + {next.id})
  }

  ghost predicate HasFault(c: Calculation, metric: MetricContract, rows: seq<Row>, registry: Registry,
                           stack: set<string>) {
    exists path :: FaultyPath(path, c, metric, rows, registry, stack)
  }

  lemma FaultMoves(c: Calculation, d: Calculation, metric: MetricContract, rows: seq<Row>, registry: Registry,
                   stack: set<string>)
    requires Demands(c, metric, rows, registry, stack) <= Demands(d, metric, rows, registry, stack)
    requires HasFault(c, metric, rows, registry, stack)
    ensures HasFault(d, metric, rows, registry, stack)
  {
    var path :| FaultyPath(path, c, metric, rows, registry, stack);
    assert FaultyPath(path, d, metric, rows, registry, stack);
  }

  /** A reference that fails was reached along a faulty path. */
  lemma {:induction false} FailureHasPath(c: Calculation, metric: MetricContract, rows: seq<Row>, registry: Registry,
                                          stack: set<string>)
    requires Eval(c, metric, rows, registry, stack).Err?
    requires Eval(c, metric, rows, registry, stack).error.InvalidDependency?
    ensures HasFault(c, metric, rows, registry, stack)
    decreases Ids(registry) - stack, c
  {
    match c
    case Metric(name) =>
      if Unusable(name, registry, stack) {
        assert FaultyPath([name], c, metric, rows, registry, stack);
      } else {
        var next := registry[name];
        assert next.id in Ids(registry) - stack;
        FailureHasPath(next.calculation, next, rows, registry, stack + {next.id});
        var path :| FaultyPath(path, next.calculation, next, rows, registry, stack + {next.id});
        assert ([name] + path)[1..] == path;
        assert FaultyPath([name] + path, c, metric, rows, registry, stack);
      }
    case Conditional(condition, chosen, otherwise) =>
      var taken := if rows != [] && Matches(rows[0], condition) then chosen else otherwise;
      FailureHasPath(taken, metric, rows, registry, stack);
      FaultMoves(taken, c, metric, rows, registry, stack);
    case Literal(value) =>
    case Field(field) =>
    case Aggregate(op, column, filter) =>
      AggregatesNeedNoMetric(op, column, metric, Select(rows, metric, filter));
    case Divide(left, right) =>
      var failing := if Eval(right, metric, rows, registry, stack).Err? then right else left;
      FailureHasPath(failing, metric, rows, registry, stack);
      FaultMoves(failing, c, metric, rows, registry, stack);
    case _ =>
      var failing := if Eval(c.left, metric, rows, registry, stack).Err? then c.left else c.right;
      FailureHasPath(failing, metric, rows, registry, stack);
      FaultMoves(failing, c, metric, rows, registry, stack);
  }

  lemma AggregatesNeedNoMetric(op: AggregateOp, column: Option<string>, metric: MetricContract, selected: seq<Row>)
    ensures var r := Aggregated(op, column, metric, selected); r.Err? ==> r.error.InvalidDecimal?
  {
    SumsNeedNoMetric(selected, column);
    SumsNeedNoMetric(AtTime(selected, metric.defaultTime, LatestTime(selected, metric.defaultTime)), column);
    if selected != [] {
      ExtremesNeedNoMetric(selected, column, true);
      ExtremesNeedNoMetric(selected, column, false);
    }
  }

  lemma {:induction false} SumsNeedNoMetric(rows: seq<Row>, column: Option<string>)
    ensures SumColumn(rows, column).Err? ==> SumColumn(rows, column).error.InvalidDecimal?
  {
    if rows != [] {
      SumsNeedNoMetric(rows[..|rows| - 1], column);
    }
  }

  lemma {:induction false} ExtremesNeedNoMetric(rows: seq<Row>, column: Option<string>, least: bool)
    requires rows != []
    ensures Extreme(rows, column, least).Err? ==> Extreme(rows, column, least).error.InvalidDecimal?
  {
    if |rows| > 1 {
      ExtremesNeedNoMetric(rows[..|rows| - 1], column, least);
    }
  }

  ghost predicate FailsOnReference(c: Calculation, metric: MetricContract, rows: seq<Row>, registry: Registry,
                                   stack: set<string>) {
    var r := Eval(c, metric, rows, registry, stack);
    r.Err? && r.error.InvalidDependency?
  }

  /** A faulty path makes the evaluation fail on a reference. */
  lemma {:induction false} PathFails(path: seq<string>, c: Calculation, metric: MetricContract, rows: seq<Row>,
                                     registry: Registry, stack: set<string>)
    requires FaultyPath(path, c, metric, rows, registry, stack)
    ensures FailsOnReference(c, metric, rows, registry, stack)
    decreases |path|, c
  {
    match c
    case Metric(name) =>
      if !Unusable(name, registry, stack) {
        var next := registry[name];
        PathFails(path[1..], next.calculation, next, rows, registry, stack + {next.id});
      }
    case Conditional(condition, chosen, otherwise) =>
      PathFails(path, if rows != [] && Matches(rows[0], condition) then chosen else otherwise,
                metric, rows, registry, stack);
    case Divide(left, right) =>
      if path[0] in Demands(right, metric, rows, registry, stack) {
        PathFails(path, right, metric, rows, registry, stack);
      } else {
        PathFails(path, left, metric, rows, registry, stack);
      }
    case Add(left, right) =>
      PathFails(path, if path[0] in Demands(left, metric, rows, registry, stack) then left else right,
                metric, rows, registry, stack);
    case Subtract(left, right) =>
      PathFails(path, if path[0] in Demands(left, metric, rows, registry, stack) then left else right,
                metric, rows, registry, stack);
    case Multiply(left, right) =>
      PathFails(path, if path[0] in Demands(left, metric, rows, registry, stack) then left else right,
                metric, rows, registry, stack);
    case _ =>
  }

  /**
   * Evaluation fails on a reference exactly when an evaluated path of references, skipping untaken branches,
   * numerators over zero and what follows a failure, reaches an unknown metric or one already in progress.
   */
  lemma FailsExactlyOnFaultyPath(c: Calculation, metric: MetricContract, rows: seq<Row>, registry: Registry,
                                 stack: set<string>)
    ensures FailsOnReference(c, metric, rows, registry, stack) <==> HasFault(c, metric, rows, registry, stack)
  {
    if FailsOnReference(c, metric, rows, registry, stack) {
      FailureHasPath(c, metric, rows, registry, stack);
    }
    if HasFault(c, metric, rows, registry, stack) {
      var path :| FaultyPath(path, c, metric, rows, registry, stack);
      PathFails(path, c, metric, rows, registry, stack);
    }
  }
}
