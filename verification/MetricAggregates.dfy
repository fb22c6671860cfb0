/** What each aggregate and filter means, apart from how the engine computes it. */
module MetricAggregates {
  import opened Wrappers
  import opened Numerals
  import opened Decimals
  import opened MetricEngine

  // ---------------------------------------------------------------- which rows are selected

  ghost predicate Passes(row: Row, metric: MetricContract, filter: Option<Filter>) {
    && (forall f | f in metric.filters :: Matches(row, f))
    && (filter.Some? ==> Matches(row, filter.value))
  }

  /** A row that passes every filter is kept as often as it occurs, and no other is. */
  lemma {:induction false} SelectKeepsExactly(rows: seq<Row>, metric: MetricContract, filter: Option<Filter>, row: Row)
    ensures multiset(Select(rows, metric, filter))[row] ==
              if Passes(row, metric, filter) then multiset(rows)[row] else 0
  {
    hide Matches;
    if rows != [] {
      var front, last := rows[..|rows| - 1], rows[|rows| - 1];
      SelectKeepsExactly(front, metric, filter, row);
      assert rows == front + [last];
    }
  }

  function Over(field: string, op: FilterOp, values: seq<Value>): Filter {
    Filter(field, op, values)
  }

  /** Each filter has its opposite: what the one lets through the other does not. */
  lemma FiltersHaveOpposites(row: Row, field: string, values: seq<Value>)
    ensures Matches(row, Over(field, IsNull, values)) <==> !Matches(row, Over(field, IsNotNull, values))
    ensures Matches(row, Over(field, Eq, values)) <==> !Matches(row, Over(field, Neq, values))
    ensures Matches(row, Over(field, In, values)) <==> !Matches(row, Over(field, NotIn, values))
  {
  }

  /** A list of values lets through what some of its parts do; one value alone is equality, none is nothing. */
  lemma ListsAreAlternatives(row: Row, field: string, some: seq<Value>, others: seq<Value>, value: Value)
    ensures Matches(row, Over(field, In, some + others)) <==>
              Matches(row, Over(field, In, some)) || Matches(row, Over(field, In, others))
    ensures Matches(row, Over(field, In, [value])) <==> Matches(row, Over(field, Eq, [value]))
    ensures !Matches(row, Over(field, In, []))
    ensures Matches(map[field := value], Over(field, Eq, [value]))
    ensures Matches(row, Over(field, Eq, [])) <==> field !in row
    ensures Matches(map[field := value], Over(field, IsNull, [])) <==> value == Null
    ensures Matches(map[], Over(field, IsNull, []))
  {
  }

  /** Comparisons order numbers and texts alike by the decimals they stand for. */
  lemma ComparisonsFollowDecimals(row: Row, field: string, values: seq<Value>, x: Scaled, y: Scaled)
    requires field in row && values != [] && StandsFor(row[field], x) && StandsFor(values[0], y)
    ensures Matches(row, Over(field, GreaterThan, values)) <==> x > y
    ensures Matches(row, Over(field, AtLeast, values)) <==> x >= y
    ensures Matches(row, Over(field, LessThan, values)) <==> x < y
    ensures Matches(row, Over(field, AtMost, values)) <==> x <= y
  {
    hide FromText, ToText;
    NumberStandsFor(row[field], x);
    NumberStandsFor(values[0], y);
  }

  predicate StandsFor(v: Value, x: Scaled) {
    match v
    case Text(s) => s == ToText(x) || (Trim(s) == "" && x == 0)
    case Number(n) => x == n * 10_000
    case Bool(b) => x == if b then 10_000 else 0
    case Null => x == 0
  }

  lemma NumberStandsFor(v: Value, x: Scaled)
    requires StandsFor(v, x)
    ensures NumberOf(v) == Some(x)
  {
    if v.Text? {
      hide FromText;
      TextRoundTrip(x);
      PrintedIsNoBlank(x);
    }
  }

  lemma PrintedIsNoBlank(x: Scaled)
    ensures Trim(ToText(x)) != ""
  {
    hide Unsigned, Magnitude;
    UnsignedReads(Absolute(x));
    TrimKeeps(Unsigned(Absolute(x)));
    TrimKeeps("-" + Unsigned(Absolute(x)));
  }

  /** A row without a comparable number passes no comparison. */
  lemma NothingToCompare(row: Row, filter: Filter)
    requires filter.op in {GreaterThan, AtLeast, LessThan, AtMost}
    requires filter.field !in row || filter.values == [] || NumberOf(row[filter.field]).None?
             || NumberOf(filter.values[0]).None?
    ensures !Matches(row, filter)
  {
  }

  /** An integer cell reads as that integer, with its sign. */
  lemma IntegerCellReads(row: Row, field: string, fallback: string)
    requires field in row && row[field].Number?
    ensures FromText(Cell(row, field, fallback)) == Some(row[field].n * 10_000)
  {
    hide FromText;
    IntegerReads(row[field].n);
  }

  lemma IntegerReads(n: int)
    ensures FromText(IntText(n)) == Some(n * 10_000)
  {
    hide FromText, Magnitude;
    WholeReads(Absolute(n));
    SignedReads(TextOf(Absolute(n)), Absolute(n) * SCALE);
  }

  lemma WholeReads(n: nat)
    ensures var digits := TextOf(n);
            && digits != "" && IsDigit(digits[0]) && IsDigit(digits[|digits| - 1])
            && Magnitude(digits) == Some(n * SCALE)
  {
    PrintedReadsBack(n);
    hide TextOf, NatOf;
    var digits := TextOf(n);
    NoPointInDigits(digits);
    assert digits[..|digits|] == digits;
  }

  lemma {:induction false} NoPointInDigits(digits: string)
    requires AllDigits(digits)
    ensures PointAt(digits) == |digits|
  {
    if digits != "" {
      NoPointInDigits(digits[1..]);
    }
  }

  // ---------------------------------------------------------------- the order of texts

  /** The first difference decides, and a beginning comes before the whole. */
  ghost predicate Precedes(a: string, b: string) {
    exists k :: 0 <= k <= |a| && k < |b| && a[..k] == b[..k] && (k == |a| || a[k] < b[k])
  }

  lemma {:induction false} TextOrder(a: string, b: string)
    ensures TextLess(a, b) <==> Precedes(a, b)
  {
    if a != "" && b != "" && a[0] == b[0] {
      TextOrder(a[1..], b[1..]);
      if Precedes(a[1..], b[1..]) {
        var x, y := a[1..], b[1..];
        var k :| 0 <= k <= |x| && k < |y| && x[..k] == y[..k] && (k == |x| || x[k] < y[k]);
        assert a[..k + 1] == [a[0]] + a[1..][..k] && b[..k + 1] == [b[0]] + b[1..][..k];
      }
      if Precedes(a, b) {
        var k :| 0 <= k <= |a| && k < |b| && a[..k] == b[..k] && (k == |a| || a[k] < b[k]);
        assert a[1..][..k - 1] == a[..k][1..] && b[1..][..k - 1] == b[..k][1..];
      }
    } else if a == "" && b != "" {
      assert a[..0] == b[..0];
    } else if b != "" && a[0] < b[0] {
      assert a[..0] == b[..0];
    } else {
      forall k | 0 < k <= |a| && k < |b|
        ensures a[..k] != b[..k]
      {
        assert a[..k][0] != b[..k][0];
      }
    }
  }

  lemma {:induction false} TextLessIsTotal(a: string, b: string)
    ensures a == b || TextLess(a, b) || TextLess(b, a)
    ensures !(TextLess(a, b) && TextLess(b, a))
  {
    if a != "" && b != "" && a[0] == b[0] {
      TextLessIsTotal(a[1..], b[1..]);
      assert a == [a[0]] + a[1..] && b == [b[0]] + b[1..];
    }
  }

  lemma {:induction false} TextLessIsTransitive(a: string, b: string, c: string)
    requires TextLess(a, b) && TextLess(b, c)
    ensures TextLess(a, c)
  {
    if a != "" && b != "" && c != "" && a[0] == b[0] == c[0] {
      TextLessIsTransitive(a[1..], b[1..], c[1..]);
    }
  }

  // ---------------------------------------------------------------- the last value

  /** No row among these shows a later time. */
  predicate Newest(row: Row, among: seq<Row>, field: string) {
    forall other | other in among :: !TextLess(Cell(row, field, ""), Cell(other, field, ""))
  }

  function NewestOf(rows: seq<Row>, among: seq<Row>, field: string): seq<Row> {
    if rows == [] then []
    else
      var front, last := NewestOf(rows[..|rows| - 1], among, field), rows[|rows| - 1];
      if Newest(last, among, field) then front + [last] else front
  }

  lemma {:induction false} LatestTimeIsGreatest(rows: seq<Row>, field: string)
    ensures LatestTime(rows, field).None? <==> rows == []
    ensures rows != [] ==> exists row :: row in rows && Some(Cell(row, field, "")) == LatestTime(rows, field)
    ensures forall row | row in rows :: !TextLess(LatestTime(rows, field).value, Cell(row, field, ""))
  {
    hide Cell, TextLess;
    if rows != [] {
      var front, last := rows[..|rows| - 1], rows[|rows| - 1];
      LatestTimeIsGreatest(front, field);
      assert rows == front + [last];
      var time := Cell(last, field, "");
      TextLessIsTotal(time, time);
      if front != [] {
        var latest := LatestTime(front, field).value;
        TextLessIsTotal(latest, time);
        forall row | row in front
          ensures TextLess(latest, time) ==> !TextLess(time, Cell(row, field, ""))
        {
          if TextLess(latest, time) && TextLess(time, Cell(row, field, "")) {
            TextLessIsTransitive(latest, time, Cell(row, field, ""));
          }
        }
      }
    }
  }

  /** Showing the latest time is showing a time nothing exceeds. */
  lemma ShowsLatest(row: Row, among: seq<Row>, field: string)
    requires row in among
    ensures Some(Cell(row, field, "")) == LatestTime(among, field) <==> Newest(row, among, field)
  {
    hide Cell, TextLess, LatestTime;
    LatestTimeIsGreatest(among, field);
    TextLessIsTotal(LatestTime(among, field).value, Cell(row, field, ""));
  }

  lemma {:induction false} AtLatestIsNewest(rows: seq<Row>, among: seq<Row>, field: string)
    requires forall row | row in rows :: row in among
    ensures AtTime(rows, field, LatestTime(among, field)) == NewestOf(rows, among, field)
  {
    hide LatestTime, Newest, Cell;
    if rows != [] {
      AtLatestIsNewest(rows[..|rows| - 1], among, field);
      ShowsLatest(rows[|rows| - 1], among, field);
    }
  }

  /** The value of an aggregate in a calculation. */
  function ValueOf(op: AggregateOp, column: Option<string>, filter: Option<Filter>, metric: MetricContract,
                   rows: seq<Row>): Outcome {
    Eval(Aggregate(op, column, filter), metric, rows, map[], {})
  }

  /** The last value is the sum over exactly those selected rows whose time no selected row exceeds. */
  lemma LastValueIsNewest(column: Option<string>, filter: Option<Filter>, metric: MetricContract, rows: seq<Row>)
    ensures var selected := Select(rows, metric, filter);
            ValueOf(LastValue, column, filter, metric, rows) ==
            SumColumn(NewestOf(selected, selected, metric.defaultTime), column)
  {
    hide Select, SumColumn, LatestTime, AtTime, NewestOf;
    var selected := Select(rows, metric, filter);
    AtLatestIsNewest(selected, selected, metric.defaultTime);
  }

  // ---------------------------------------------------------------- extremes, averages and distinct counts

  predicate Reads(row: Row, column: Option<string>, x: Scaled) {
    FromText(ColumnText(row, column)) == Some(x)
  }

  /** The least or greatest cell: it is one of them and bounds them all; there is none when a cell does not read. */
  lemma {:induction false} ExtremeBounds(rows: seq<Row>, column: Option<string>, least: bool)
    requires rows != []
    ensures var r := Extreme(rows, column, least);
            && (r.Err? <==> exists row :: row in rows && FromText(ColumnText(row, column)).None?)
            && (r.Ok? ==>
                  && (exists row :: row in rows && Reads(row, column, r.value))
                  && forall row, x | row in rows && Reads(row, column, x) ::
                       if least then r.value <= x else x <= r.value)
  {
    hide FromText, ColumnText;
    var front, last := rows[..|rows| - 1], rows[|rows| - 1];
    assert rows == front + [last] && last in rows;
    var cell := FromText(ColumnText(last, column));
    assert cell.Some? ==> Reads(last, column, cell.value);
    if |rows| > 1 {
      ExtremeBounds(front, column, least);
    }
  }

  /** Min and Max: zero over nothing, else the least and the greatest of the cells read. */
  lemma ExtremesAreBounds(column: Option<string>, filter: Option<Filter>, metric: MetricContract, rows: seq<Row>)
    ensures var selected := Select(rows, metric, filter);
            var low, high := ValueOf(Min, column, filter, metric, rows), ValueOf(Max, column, filter, metric, rows);
            && (selected == [] ==> low == high == Ok(0))
            && (selected != [] ==>
                  && (low.Ok? <==> high.Ok?)
                  && (low.Ok? <==> forall row | row in selected :: FromText(ColumnText(row, column)).Some?)
                  && (low.Ok? ==>
                        && (exists row :: row in selected && Reads(row, column, low.value))
                        && (exists row :: row in selected && Reads(row, column, high.value))
                        && forall row, x | row in selected && Reads(row, column, x) :: low.value <= x <= high.value))
  {
    hide Select, FromText, ColumnText, Extreme;
    var selected := Select(rows, metric, filter);
    if selected != [] {
      ExtremeBounds(selected, column, true);
      ExtremeBounds(selected, column, false);
    }
  }

  /** The average is nearest to the sum divided by the count, halves away from zero; zero over nothing. */
  lemma AverageIsNearest(column: Option<string>, filter: Option<Filter>, metric: MetricContract, rows: seq<Row>)
    ensures var selected := Select(rows, metric, filter);
            var total, average := SumColumn(selected, column), ValueOf(Avg, column, filter, metric, rows);
            && (selected == [] ==> average == Ok(0))
            && (selected != [] ==>
                  && (average.Ok? <==> total.Ok?)
                  && (total.Ok? ==>
                        && 2 * Absolute(average.value * |selected| - total.value) <= |selected|
                        && (2 * Absolute(average.value * |selected| - total.value) == |selected| ==>
                              Absolute(average.value * |selected|) > Absolute(total.value))))
  {
    hide Select, SumColumn, Rounded;
    var selected := Select(rows, metric, filter);
    var total := SumColumn(selected, column);
    if selected != [] && total.Ok? {
      QuotientIsAverage(total.value, |selected|);
    }
  }

  lemma QuotientIsAverage(total: int, count: int)
    requires count > 0
    ensures var average := Decimals.Divide(total, count * 10_000);
            && 2 * Absolute(average * count - total) <= count
            && (2 * Absolute(average * count - total) == count ==> Absolute(average * count) > Absolute(total))
  {
    var average := Decimals.Divide(total, count * 10_000);
    RoundedIsNearest(total * 10_000, count * 10_000);
    Scaling(average, count, total);
  }

  lemma Scaling(average: int, count: int, total: int)
    ensures average * (count * 10_000) - total * 10_000 == (average * count - total) * 10_000
    ensures average * (count * 10_000) == average * count * 10_000
  {
  }

  /** Some row before shows the same text in the column, or is the same row when there is no column. */
  predicate Shown(before: seq<Row>, column: Option<string>, row: Row) {
    if column.None? then row in before
    else exists other | other in before :: Cell(other, column.value, "") == Cell(row, column.value, "")
  }

  /** One more row counts as distinct exactly when no row before it shows the same. */
  lemma DistinctGrows(column: Option<string>, selected: seq<Row>, row: Row, metric: MetricContract)
    ensures Aggregated(CountDistinct, column, metric, []) == Ok(0)
    ensures var before := Aggregated(CountDistinct, column, metric, selected);
            var after := Aggregated(CountDistinct, column, metric, selected + [row]);
            before.Ok? && after == Ok(before.value + if Shown(selected, column, row) then 0 else 10_000)
  {
    NothingDistinct(column);
    hide DistinctCount, SumColumn, AtTime, LatestTime, Extreme, Shown;
    if column.Some? {
      TextsGrow(column.value, selected, row);
    } else {
      RowsGrow(selected, row);
    }
  }

  lemma NothingDistinct(column: Option<string>)
    ensures DistinctCount([], column) == 0
  {
    hide Cell;
    var none: seq<Row> := [];
    if column.Some? {
      var field := column.value;
      assert (set row | row in none :: Cell(row, field, "")) == {};
    } else {
      assert (set row | row in none) == {};
    }
  }

  lemma TextsGrow(column: string, selected: seq<Row>, row: Row)
    ensures DistinctCount(selected + [row], Some(column)) ==
              DistinctCount(selected, Some(column)) + if Shown(selected, Some(column), row) then 0 else 1
  {
    hide Cell;
    var shown := set other | other in selected :: Cell(other, column, "");
    assert (set other | other in selected + [row] :: Cell(other, column, "")) == shown + {Cell(row, column, "")};
  }

  lemma RowsGrow(selected: seq<Row>, row: Row)
    ensures DistinctCount(selected + [row], None) ==
              DistinctCount(selected, None) + if Shown(selected, None, row) then 0 else 1
  {
    var shown := set other | other in selected;
    var all := set other | other in selected + [row];
    assert all == shown + {row};
    assert DistinctCount(selected + [row], None) == |all| && DistinctCount(selected, None) == |shown|;
    assert row in shown <==> row in selected;
  }
}
