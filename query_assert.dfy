/**
 * QueryAssert: assertions on a query result. Rows are matched column by
 * column through the comparator of each column; an expected cell is one
 * value or a list of acceptable values (AcceptableValues), and matches when
 * the comparator gives 0 for one of them. A failed assertion is an
 * AssertionError, modelled as a verdict that names what failed; a
 * comparator that throws makes the whole assertion throw (a Fail result).
 */
module QueryAsserts {
  import opened Wrappers
  import opened Strings
  import opened JdbcTypes
  import opened Values
  import opened QueryResults
  import ValueComparator
  import QueryRowMapper
  import SqlResultDescriptors

  /** An expected cell: a single value, or several acceptable ones. */
  datatype Expected = Plain(value: Value) | AnyOf(values: seq<Value>)

  type ExpectedRow = seq<Expected>

  /** The comparator of each column: (column, actual, expected) to compare's result, or its exception. */
  type Comparator = (int, Value, Value) -> Result<int>

  /** What an AssertionError reports. */
  datatype Failure =
    | RowCount(expectedCount: int, actualCount: int)
    | ColumnCount(expectedCount: int, actualCount: int)
    | ColumnType(index: int, expectedType: JdbcType, actualType: JdbcType)
    | MissingRows(rows: seq<ExpectedRow>)
    | UnequalRows(indexes: seq<int>)
    | Unmappable(error: Error)

  datatype Verdict = Holds | Fails(failure: Failure)

  /**
   * getComparators: the value comparator of each column's type; a column
   * beyond the result's columns has none.
   */
  function ColumnComparators(types: seq<JdbcType>, o: ValueComparator.Oracles): Comparator
  {
    (column: int, actual: Value, expected: Value) =>
      if 0 <= column < |types| then ValueComparator.Compare(types[column], actual, expected, o)
      else Fail(IndexOutOfBounds)
  }

  /** A plain expected value is a single alternative. */
  function Alternatives(cell: Expected): seq<Value>
  {
    match cell
    case Plain(v) => [v]
    case AnyOf(vs) => vs
  }

  function Prepend<T>(prefix: seq<T>, r: Result<seq<T>>): Result<seq<T>>
  {
    match r
    case Fail(e) => Fail(e)
    case Ok(s) => Ok(prefix + s)
  }

  lemma PrependNothing<T>(r: Result<seq<T>>)
    ensures Prepend([], r) == r
  {
    if r.Ok? {
      assert [] + r.value == r.value;
    }
  }

  lemma PrependTwice<T>(a: seq<T>, b: seq<T>, r: Result<seq<T>>)
    ensures Prepend(a, Prepend(b, r)) == Prepend(a + b, r)
  {
    if r.Ok? {
      assert a + (b + r.value) == (a + b) + r.value;
    }
  }

  // ---------------------------------------------------------------------
  // Matching rows

  /**
   * isAnyValueEqual: whether the column's comparator gives 0 for one of the
   * expected values, tried in order; an exception stops the search.
   */
  function AnyEqual(cmp: Comparator, column: int, expectedValues: seq<Value>, actual: Value): (r: Result<bool>)
    ensures r.Fail? ==> exists k :: 0 <= k < |expectedValues| && cmp(column, actual, expectedValues[k]) == Fail(r.error)
  {
    if expectedValues == [] then Ok(false)
    else match cmp(column, actual, expectedValues[0])
      case Fail(e) => Fail(e)
      case Ok(c) =>
        if c == 0 then Ok(true)
        else
          var rest := AnyEqual(cmp, column, expectedValues[1..], actual);
          assert rest.Fail? ==> exists k :: 1 <= k < |expectedValues| && cmp(column, actual, expectedValues[k]) == Fail(rest.error);
          rest
  }

  method IsAnyValueEqual(cmp: Comparator, column: int, expectedValues: seq<Value>, actual: Value) returns (r: Result<bool>)
    ensures r == AnyEqual(cmp, column, expectedValues, actual)
  {
    for i := 0 to |expectedValues|
      invariant AnyEqual(cmp, column, expectedValues, actual) == AnyEqual(cmp, column, expectedValues[i..], actual)
    {
      assert expectedValues[i..][1..] == expectedValues[i + 1..];
      var c := cmp(column, actual, expectedValues[i]);
      if c.Fail? {
        return Fail(c.error);
      }
      if c.value == 0 {
        return Ok(true);
      }
    }
    return Ok(false);
  }

  /** The columns from i on, each matched against its acceptable values. */
  function CellsEqual(cmp: Comparator, expectedRow: ExpectedRow, actualRow: seq<Value>, i: nat): Result<bool>
    requires |expectedRow| == |actualRow| && i <= |expectedRow|
    decreases |expectedRow| - i
  {
    if i == |expectedRow| then Ok(true)
    else match AnyEqual(cmp, i, Alternatives(expectedRow[i]), actualRow[i])
      case Fail(e) => Fail(e)
      case Ok(b) => if b then CellsEqual(cmp, expectedRow, actualRow, i + 1) else Ok(false)
  }

  /** rowsEqual: rows of different sizes are unequal; otherwise every column must match. */
  function EqualRows(cmp: Comparator, expectedRow: ExpectedRow, actualRow: seq<Value>): (r: Result<bool>)
    ensures |expectedRow| != |actualRow| ==> r == Ok(false)
  {
    if |expectedRow| != |actualRow| then Ok(false) else CellsEqual(cmp, expectedRow, actualRow, 0)
  }

  method RowsEqual(cmp: Comparator, expectedRow: ExpectedRow, actualRow: seq<Value>) returns (r: Result<bool>)
    ensures r == EqualRows(cmp, expectedRow, actualRow)
  {
    if |expectedRow| != |actualRow| {
      return Ok(false);
    }
    for i := 0 to |expectedRow|
      invariant EqualRows(cmp, expectedRow, actualRow) == CellsEqual(cmp, expectedRow, actualRow, i)
    {
      var equal := IsAnyValueEqual(cmp, i, Alternatives(expectedRow[i]), actualRow[i]);
      if equal.Fail? {
        return Fail(equal.error);
      }
      if !equal.value {
        return Ok(false);
      }
    }
    return Ok(true);
  }

  /** containsRow: whether some actual row from i on equals the expected row. */
  function RowFound(cmp: Comparator, expectedRow: ExpectedRow, rows: seq<seq<Value>>, i: nat): Result<bool>
    requires i <= |rows|
    decreases |rows| - i
  {
    if i == |rows| then Ok(false)
    else match EqualRows(cmp, expectedRow, rows[i])
      case Fail(e) => Fail(e)
      case Ok(b) => if b then Ok(true) else RowFound(cmp, expectedRow, rows, i + 1)
  }

  method ContainsRow(cmp: Comparator, expectedRow: ExpectedRow, q: QueryResult) returns (r: Result<bool>)
    ensures r == RowFound(cmp, expectedRow, q.values, 0)
  {
    for i := 0 to |q.values|
      invariant RowFound(cmp, expectedRow, q.values, 0) == RowFound(cmp, expectedRow, q.values, i)
    {
      var equal := RowsEqual(cmp, expectedRow, q.values[i]);
      if equal.Fail? {
        return Fail(equal.error);
      }
      if equal.value {
        return Ok(true);
      }
    }
    return Ok(false);
  }

  // ---------------------------------------------------------------------
  // contains, containsOnly, containsExactly

  /** The expected rows no actual row equals, in their order. */
  function Missing(cmp: Comparator, expected: seq<ExpectedRow>, rows: seq<seq<Value>>): (r: Result<seq<ExpectedRow>>)
    ensures r.Ok? ==> |r.value| <= |expected|
  {
    if expected == [] then Ok([])
    else match RowFound(cmp, expected[0], rows, 0)
      case Fail(e) => Fail(e)
      case Ok(found) =>
        var rest := Missing(cmp, expected[1..], rows);
        if found then rest else Prepend([expected[0]], rest)
  }

  /** contains: holds when no expected row is missing; otherwise reports every missing row. */
  function ContainsOutcome(cmp: Comparator, q: QueryResult, expected: seq<ExpectedRow>): (r: Result<Verdict>)
    ensures r.Ok? && r.value.Fails? ==> r.value.failure.MissingRows? && r.value.failure.rows != []
  {
    match Missing(cmp, expected, q.values)
    case Fail(e) => Fail(e)
    case Ok(missing) => if missing == [] then Ok(Holds) else Ok(Fails(MissingRows(missing)))
  }

  method Contains(cmp: Comparator, q: QueryResult, expected: seq<ExpectedRow>) returns (r: Result<Verdict>)
    ensures r == ContainsOutcome(cmp, q, expected)
  {
    var missingRows: seq<ExpectedRow> := [];
    assert expected[0..] == expected;
    PrependNothing(Missing(cmp, expected, q.values));
    for i := 0 to |expected|
      invariant Missing(cmp, expected, q.values) == Prepend(missingRows, Missing(cmp, expected[i..], q.values))
    {
      assert expected[i..][1..] == expected[i + 1..];
      var found := ContainsRow(cmp, expected[i], q);
      if found.Fail? {
        return Fail(found.error);
      }
      if !found.value {
        PrependTwice(missingRows, [expected[i]], Missing(cmp, expected[i + 1..], q.values));
        missingRows := missingRows + [expected[i]];
      }
    }
    assert expected[|expected|..] == [];
    assert missingRows + [] == missingRows;
    if missingRows != [] {
      return Ok(Fails(MissingRows(missingRows)));
    }
    return Ok(Holds);
  }

  /** hasRowsCount. */
  function HasRowsCount(q: QueryResult, count: int): (v: Verdict)
    ensures v == Holds <==> |q.values| == count
  {
    if |q.values| != count then Fails(RowCount(count, |q.values|)) else Holds
  }

  /** containsOnly: as many rows as expected, then contains. */
  function ContainsOnlyOutcome(cmp: Comparator, q: QueryResult, expected: seq<ExpectedRow>): (r: Result<Verdict>)
    ensures |q.values| != |expected| ==> r == Ok(Fails(RowCount(|expected|, |q.values|)))
    ensures |q.values| == |expected| ==> r == ContainsOutcome(cmp, q, expected)
  {
    var count := HasRowsCount(q, |expected|);
    if count.Fails? then Ok(count) else ContainsOutcome(cmp, q, expected)
  }

  method ContainsOnly(cmp: Comparator, q: QueryResult, expected: seq<ExpectedRow>) returns (r: Result<Verdict>)
    ensures r == ContainsOnlyOutcome(cmp, q, expected)
  {
    var count := HasRowsCount(q, |expected|);
    if count.Fails? {
      return Ok(count);
    }
    r := Contains(cmp, q, expected);
  }

  /** The positions from i on where the actual row does not equal the expected one. */
  function Unequal(cmp: Comparator, expected: seq<ExpectedRow>, rows: seq<seq<Value>>, i: nat): (r: Result<seq<int>>)
    requires |expected| == |rows| && i <= |expected|
    ensures r.Ok? ==> forall k :: 0 <= k < |r.value| ==> i <= r.value[k] < |expected|
    decreases |expected| - i
  {
    if i == |expected| then Ok([])
    else match EqualRows(cmp, expected[i], rows[i])
      case Fail(e) => Fail(e)
      case Ok(equal) =>
        var rest := Unequal(cmp, expected, rows, i + 1);
        if equal then rest else Prepend([i], rest)
  }

  /** containsExactly: as many rows as expected, each equal to the expected row at its position. */
  function ContainsExactlyOutcome(cmp: Comparator, q: QueryResult, expected: seq<ExpectedRow>): (r: Result<Verdict>)
    ensures |q.values| != |expected| ==> r == Ok(Fails(RowCount(|expected|, |q.values|)))
    ensures r.Ok? && r.value.Fails? && |q.values| == |expected| ==>
      r.value.failure.UnequalRows? && r.value.failure.indexes != []
  {
    var count := HasRowsCount(q, |expected|);
    if count.Fails? then Ok(count)
    else match Unequal(cmp, expected, q.values, 0)
      case Fail(e) => Fail(e)
      case Ok(indexes) => if indexes == [] then Ok(Holds) else Ok(Fails(UnequalRows(indexes)))
  }

  method ContainsExactly(cmp: Comparator, q: QueryResult, expected: seq<ExpectedRow>) returns (r: Result<Verdict>)
    ensures r == ContainsExactlyOutcome(cmp, q, expected)
  {
    var count := HasRowsCount(q, |expected|);
    if count.Fails? {
      return Ok(count);
    }
    var unequalRowsIndexes: seq<int> := [];
    PrependNothing(Unequal(cmp, expected, q.values, 0));
    for rowIndex := 0 to |expected|
      invariant Unequal(cmp, expected, q.values, 0) == Prepend(unequalRowsIndexes, Unequal(cmp, expected, q.values, rowIndex))
    {
      var equal := RowsEqual(cmp, expected[rowIndex], q.values[rowIndex]);
      if equal.Fail? {
        return Fail(equal.error);
      }
      if !equal.value {
        PrependTwice(unequalRowsIndexes, [rowIndex], Unequal(cmp, expected, q.values, rowIndex + 1));
        unequalRowsIndexes := unequalRowsIndexes + [rowIndex];
      }
    }
    assert unequalRowsIndexes + [] == unequalRowsIndexes;
    if unequalRowsIndexes != [] {
      return Ok(Fails(UnequalRows(unequalRowsIndexes)));
    }
    return Ok(Holds);
  }

  // ---------------------------------------------------------------------
  // hasColumns and matches

  /** The first position from i on where the types differ. */
  function FirstTypeMismatch(expected: seq<JdbcType>, actual: seq<JdbcType>, i: nat): (r: Option<nat>)
    requires |expected| == |actual| && i <= |expected|
    ensures r.None? <==> forall k :: i <= k < |expected| ==> expected[k] == actual[k]
    ensures r.Some? ==> i <= r.value < |expected| && expected[r.value] != actual[r.value]
    ensures r.Some? ==> forall k :: i <= k < r.value ==> expected[k] == actual[k]
    decreases |expected| - i
  {
    if i == |expected| then None
    else if expected[i] != actual[i] then Some(i)
    else FirstTypeMismatch(expected, actual, i + 1)
  }

  /** hasColumns: the column count, then the type of each column, first difference reported. */
  function HasColumns(q: QueryResult, expectedTypes: seq<JdbcType>): (v: Verdict)
    ensures v == Holds <==> q.columnTypes == expectedTypes
  {
    if |q.columnTypes| != |expectedTypes| then Fails(ColumnCount(|expectedTypes|, |q.columnTypes|))
    else match FirstTypeMismatch(expectedTypes, q.columnTypes, 0)
      case None => Holds
      case Some(k) => Fails(ColumnType(k, expectedTypes[k], q.columnTypes[k]))
  }

  /** Expected rows read from a file: every cell a single value. */
  function AsExpected(rows: seq<seq<Value>>): (r: seq<ExpectedRow>)
    ensures |r| == |rows| && forall i :: 0 <= i < |rows| ==> |r[i]| == |rows[i]|
  {
    seq(|rows|, i requires 0 <= i < |rows| => seq(|rows[i]|, c requires 0 <= c < |rows[i]| => Plain(rows[i][c])))
  }

  /**
   * matches: the expected types when given; then the expected rows (a row
   * that cannot be mapped fails the assertion); then contains when order is
   * ignored and containsExactly otherwise; then the row count, unless
   * excess rows are ignored.
   */
  function MatchesOutcome(cmp: Comparator, q: QueryResult, expectedTypes: Option<seq<JdbcType>>,
                          rows: Result<seq<seq<Value>>>, ignoreOrder: bool, ignoreExcessRows: bool): (r: Result<Verdict>)
    ensures expectedTypes.Some? && expectedTypes.value != q.columnTypes ==> r.Ok? && r.value.Fails?
    ensures (expectedTypes.None? || expectedTypes.value == q.columnTypes) && rows.Fail? ==>
      r == Ok(Fails(Unmappable(rows.error)))
  {
    var columns := if expectedTypes.Some? then HasColumns(q, expectedTypes.value) else Holds;
    if columns.Fails? then Ok(columns)
    else if rows.Fail? then Ok(Fails(Unmappable(rows.error)))
    else
      var expected := AsExpected(rows.value);
      var matched := if ignoreOrder then ContainsOutcome(cmp, q, expected) else ContainsExactlyOutcome(cmp, q, expected);
      if matched != Ok(Holds) then matched
      else if !ignoreExcessRows then Ok(HasRowsCount(q, |expected|))
      else Ok(Holds)
  }

  method Matches(cmp: Comparator, q: QueryResult, expectedTypes: Option<seq<JdbcType>>,
                 rows: Result<seq<seq<Value>>>, ignoreOrder: bool, ignoreExcessRows: bool) returns (r: Result<Verdict>)
    ensures r == MatchesOutcome(cmp, q, expectedTypes, rows, ignoreOrder, ignoreExcessRows)
  {
    if expectedTypes.Some? {
      var columns := HasColumns(q, expectedTypes.value);
      if columns.Fails? {
        return Ok(columns);
      }
    }
    if rows.Fail? {
      return Ok(Fails(Unmappable(rows.error)));
    }
    var expected := AsExpected(rows.value);
    if ignoreOrder {
      r := Contains(cmp, q, expected);
    } else {
      r := ContainsExactly(cmp, q, expected);
    }
    if r != Ok(Holds) {
      return r;
    }
    if !ignoreExcessRows {
      return Ok(HasRowsCount(q, |expected|));
    }
  }

  /**
   * matches(sqlResultDescriptor): the descriptor's types, rows and flags,
   * against the comparators of the result's column types.
   */
  function MatchesDescriptor(q: QueryResult, d: SqlResultDescriptors.SqlResultDescriptor, o: ValueComparator.Oracles,
                             parses: QueryRowMapper.Parses, showOpaque: (OpaqueKind, string) -> string): (r: Result<Verdict>)
    ensures d.expectedTypes.None? && SqlResultDescriptors.ColumnDelimiter(d.descriptor) == "" ==>
      r == Ok(Fails(Unmappable(IllegalArgument)))
  {
    MatchesOutcome(ColumnComparators(q.columnTypes, o), q, d.expectedTypes,
                   SqlResultDescriptors.Rows(d, q.columnTypes, parses, showOpaque),
                   SqlResultDescriptors.IsIgnoreOrder(d), SqlResultDescriptors.IsIgnoreExcessRows(d))
  }

  // ---------------------------------------------------------------------
  // Row.toString

  /**
   * The text of one value: "null" for null; strings, booleans and integers
   * as Java prints them; everything else (the DECIMAL_FORMAT of a float or
   * double, other classes' toString) through format.
   */
  function ValueText(v: Value, format: Value -> string): string
  {
    match v
    case Null => "null"
    case Str(s) => s
    case Bool(b) => if b then "true" else "false"
    case Byte(i) => IntToString(i)
    case Short(i) => IntToString(i)
    case Int(i) => IntToString(i)
    case Long(i) => IntToString(i)
    case _ => format(v)
  }

  /** Row.toString: each value's text followed by '|'. */
  function RowText(values: seq<Value>, format: Value -> string): string
  {
    if values == [] then "" else ValueText(values[0], format) + "|" + RowText(values[1..], format)
  }

  method RowToString(values: seq<Value>, format: Value -> string) returns (s: string)
    ensures s == RowText(values, format)
  {
    s := "";
    for i := 0 to |values|
      invariant RowText(values, format) == s + RowText(values[i..], format)
    {
      var cell := ValueText(values[i], format) + "|";
      RowTextStep(values, i, format);
      AppendAssoc(s, cell, RowText(values[i + 1..], format));
      s := s + cell;
    }
    assert values[|values|..] == [];
  }

  /** The text from position i on: cell i, a bar, and the text after it. */
  lemma RowTextStep(values: seq<Value>, i: nat, format: Value -> string)
    requires i < |values|
    ensures RowText(values[i..], format) == ValueText(values[i], format) + "|" + RowText(values[i + 1..], format)
  {
    assert values[i..][1..] == values[i + 1..];
  }

  lemma AppendAssoc(a: string, b: string, c: string)
    ensures a + b + c == a + (b + c)
  {
  }

  // ---------------------------------------------------------------------
  // Lemmas: matching

  /** An expected cell matches when one of its alternatives compares 0. */
  ghost predicate CellMatches(cmp: Comparator, column: int, cell: Expected, actual: Value)
  {
    exists k :: 0 <= k < |Alternatives(cell)| && cmp(column, actual, Alternatives(cell)[k]) == Ok(0)
  }

  /** No comparison of the cell's alternatives throws. */
  ghost predicate CellDefined(cmp: Comparator, column: int, cell: Expected, actual: Value)
  {
    forall k :: 0 <= k < |Alternatives(cell)| ==> cmp(column, actual, Alternatives(cell)[k]).Ok?
  }

  ghost predicate RowMatches(cmp: Comparator, expectedRow: ExpectedRow, actualRow: seq<Value>)
  {
    |expectedRow| == |actualRow| &&
    forall c :: 0 <= c < |expectedRow| ==> CellMatches(cmp, c, expectedRow[c], actualRow[c])
  }

  ghost predicate RowDefined(cmp: Comparator, expectedRow: ExpectedRow, actualRow: seq<Value>)
  {
    |expectedRow| == |actualRow| ==>
      forall c :: 0 <= c < |expectedRow| ==> CellDefined(cmp, c, expectedRow[c], actualRow[c])
  }

  ghost predicate Found(cmp: Comparator, expectedRow: ExpectedRow, rows: seq<seq<Value>>)
  {
    exists j :: 0 <= j < |rows| && RowMatches(cmp, expectedRow, rows[j])
  }

  /** No comparison of any expected row against any actual row throws. */
  ghost predicate AllDefined(cmp: Comparator, expected: seq<ExpectedRow>, rows: seq<seq<Value>>)
  {
    forall x, j :: 0 <= x < |expected| && 0 <= j < |rows| ==> RowDefined(cmp, expected[x], rows[j])
  }

  /** When no comparison throws, isAnyValueEqual is whether some alternative compares 0. */
  lemma {:induction false} AnyEqualSpec(cmp: Comparator, column: int, expectedValues: seq<Value>, actual: Value)
    requires forall k :: 0 <= k < |expectedValues| ==> cmp(column, actual, expectedValues[k]).Ok?
    ensures AnyEqual(cmp, column, expectedValues, actual) ==
      Ok(exists k :: 0 <= k < |expectedValues| && cmp(column, actual, expectedValues[k]) == Ok(0))
  {
    if expectedValues != [] && cmp(column, actual, expectedValues[0]) != Ok(0) {
      var rest := expectedValues[1..];
      assert forall k :: 0 <= k < |rest| ==> rest[k] == expectedValues[k + 1];
      AnyEqualSpec(cmp, column, rest, actual);
      if exists k :: 0 <= k < |expectedValues| && cmp(column, actual, expectedValues[k]) == Ok(0) {
        var k :| 0 <= k < |expectedValues| && cmp(column, actual, expectedValues[k]) == Ok(0);
        assert rest[k - 1] == expectedValues[k];
      }
    }
  }

  lemma {:induction false} CellsEqualSpec(cmp: Comparator, expectedRow: ExpectedRow, actualRow: seq<Value>, i: nat)
    requires |expectedRow| == |actualRow| && i <= |expectedRow|
    requires forall c :: i <= c < |expectedRow| ==> CellDefined(cmp, c, expectedRow[c], actualRow[c])
    ensures CellsEqual(cmp, expectedRow, actualRow, i) ==
      Ok(forall c :: i <= c < |expectedRow| ==> CellMatches(cmp, c, expectedRow[c], actualRow[c]))
    decreases |expectedRow| - i
  {
    if i < |expectedRow| {
      AnyEqualSpec(cmp, i, Alternatives(expectedRow[i]), actualRow[i]);
      CellsEqualSpec(cmp, expectedRow, actualRow, i + 1);
    }
  }

  /**
   * rowsEqual, when no comparison throws: the rows have the same size and
   * every column's actual value compares 0 against an acceptable value.
   */
  lemma EqualRowsSpec(cmp: Comparator, expectedRow: ExpectedRow, actualRow: seq<Value>)
    requires RowDefined(cmp, expectedRow, actualRow)
    ensures EqualRows(cmp, expectedRow, actualRow) == Ok(RowMatches(cmp, expectedRow, actualRow))
  {
    if |expectedRow| == |actualRow| {
      CellsEqualSpec(cmp, expectedRow, actualRow, 0);
    }
  }

  lemma {:induction false} RowFoundSpec(cmp: Comparator, expectedRow: ExpectedRow, rows: seq<seq<Value>>, i: nat)
    requires i <= |rows|
    requires forall j :: i <= j < |rows| ==> RowDefined(cmp, expectedRow, rows[j])
    ensures RowFound(cmp, expectedRow, rows, i) ==
      Ok(exists j :: i <= j < |rows| && RowMatches(cmp, expectedRow, rows[j]))
    decreases |rows| - i
  {
    if i < |rows| {
      EqualRowsSpec(cmp, expectedRow, rows[i]);
      RowFoundSpec(cmp, expectedRow, rows, i + 1);
    }
  }

  /**
   * When no comparison throws, the missing rows are exactly the expected
   * rows that equal no actual row (a row may be matched by the same actual
   * row as another: duplicates are not counted).
   */
  lemma {:induction false} MissingSpec(cmp: Comparator, expected: seq<ExpectedRow>, rows: seq<seq<Value>>)
    requires AllDefined(cmp, expected, rows)
    ensures Missing(cmp, expected, rows).Ok?
    ensures forall e :: e in Missing(cmp, expected, rows).value <==> e in expected && !Found(cmp, e, rows)
  {
    if expected != [] {
      var rest := expected[1..];
      assert forall x :: 0 <= x < |rest| ==> rest[x] == expected[x + 1];
      MissingSpec(cmp, rest, rows);
      RowFoundSpec(cmp, expected[0], rows, 0);
      assert forall e :: e in expected <==> e == expected[0] || e in rest;
    }
  }

  /**
   * contains, when no comparison throws: it holds exactly when every
   * expected row equals some actual row, and a failure lists every row
   * that does not.
   */
  lemma ContainsSpec(cmp: Comparator, q: QueryResult, expected: seq<ExpectedRow>)
    requires AllDefined(cmp, expected, q.values)
    ensures ContainsOutcome(cmp, q, expected).Ok?
    ensures ContainsOutcome(cmp, q, expected) == Ok(Holds) <==>
      forall x :: 0 <= x < |expected| ==> Found(cmp, expected[x], q.values)
    ensures var v := ContainsOutcome(cmp, q, expected).value;
      v.Fails? ==> forall e :: e in v.failure.rows <==> e in expected && !Found(cmp, e, q.values)
  {
    MissingSpec(cmp, expected, q.values);
    var missing := Missing(cmp, expected, q.values).value;
    if missing != [] {
      assert missing[0] in missing;
    }
  }

  /**
   * containsOnly is an equal count plus contains, not a one-to-one
   * matching: the expected rows [a], [a] pass against the actual rows [a], [b].
   */
  lemma ContainsOnlyNotBijection(a: Value, b: Value)
    requires a != b
    ensures var cmp := EqualityComparator();
      ContainsOnlyOutcome(cmp, QueryResult([VARCHAR], map[], [[a], [b]]), [[Plain(a)], [Plain(a)]]) == Ok(Holds)
  {
    var cmp := EqualityComparator();
    var q := QueryResult([VARCHAR], map[], [[a], [b]]);
    var expected := [[Plain(a)], [Plain(a)]];
    assert AnyEqual(cmp, 0, [a], a) == Ok(true);
    assert Alternatives(Plain(a)) == [a];
    assert CellsEqual(cmp, [Plain(a)], [a], 1) == Ok(true);
    assert EqualRows(cmp, [Plain(a)], [a]) == Ok(true);
    assert RowFound(cmp, [Plain(a)], q.values, 0) == Ok(true);
    assert expected[1..] == [[Plain(a)]] && expected[1..][1..] == [];
    assert Missing(cmp, [], q.values) == Ok([]);
    assert Missing(cmp, [[Plain(a)]], q.values) == Ok([]);
    assert Missing(cmp, expected, q.values) == Ok([]);
  }

  /** Plain equality, as a comparator that never throws. */
  function EqualityComparator(): (cmp: Comparator)
    ensures forall c, x, y :: cmp(c, x, y) == if x == y then Ok(0) else Ok(-1)
  {
    (c: int, x: Value, y: Value) => if x == y then Ok(0) else Ok(-1)
  }

  /**
   * When no comparison throws, the unequal positions are exactly those
   * where the actual row does not equal the expected one.
   */
  lemma {:induction false} UnequalSpec(cmp: Comparator, expected: seq<ExpectedRow>, rows: seq<seq<Value>>, i: nat)
    requires |expected| == |rows| && i <= |expected|
    requires forall x :: i <= x < |expected| ==> RowDefined(cmp, expected[x], rows[x])
    ensures Unequal(cmp, expected, rows, i).Ok?
    ensures forall x :: x in Unequal(cmp, expected, rows, i).value <==>
      i <= x < |expected| && !RowMatches(cmp, expected[x], rows[x])
    decreases |expected| - i
  {
    if i < |expected| {
      EqualRowsSpec(cmp, expected[i], rows[i]);
      UnequalSpec(cmp, expected, rows, i + 1);
    }
  }

  /**
   * containsExactly, when no comparison throws: it holds exactly when
   * there are as many rows as expected and each equals the expected row at
   * its position; with equal counts a failure lists exactly the unequal
   * positions.
   */
  lemma ContainsExactlySpec(cmp: Comparator, q: QueryResult, expected: seq<ExpectedRow>)
    requires |q.values| == |expected| ==> forall x :: 0 <= x < |expected| ==> RowDefined(cmp, expected[x], q.values[x])
    ensures ContainsExactlyOutcome(cmp, q, expected).Ok?
    ensures ContainsExactlyOutcome(cmp, q, expected) == Ok(Holds) <==>
      |q.values| == |expected| && forall x :: 0 <= x < |expected| ==> RowMatches(cmp, expected[x], q.values[x])
    ensures var v := ContainsExactlyOutcome(cmp, q, expected).value;
      v.Fails? && |q.values| == |expected| ==>
        forall x :: x in v.failure.indexes <==> 0 <= x < |expected| && !RowMatches(cmp, expected[x], q.values[x])
  {
    if |q.values| == |expected| {
      UnequalSpec(cmp, expected, q.values, 0);
      var indexes := Unequal(cmp, expected, q.values, 0).value;
      if indexes != [] {
        assert indexes[0] in indexes;
      }
    }
  }

  /** A result's own rows as expected rows: each value in the form an expected value takes. */
  function ExpectedFormRows(rows: seq<seq<Value>>): (r: seq<ExpectedRow>)
    ensures |r| == |rows| && forall i :: 0 <= i < |rows| ==> |r[i]| == |rows[i]|
  {
    seq(|rows|, i requires 0 <= i < |rows| =>
      seq(|rows[i]|, c requires 0 <= c < |rows[i]| => Plain(ValueComparator.ExpectedForm(rows[i][c]))))
  }

  /**
   * With the comparators of its own column types, a result whose values
   * are of their columns' classes (floating point aside) passes
   * containsExactly against its own rows, provided compareTo is reflexive.
   */
  lemma OwnRowsMatchExactly(q: QueryResult, o: ValueComparator.Oracles)
    requires WellFormed(q)
    requires forall i, c :: 0 <= i < |q.values| && 0 <= c < |q.columnTypes| ==>
      ValueComparator.Conforms(q.columnTypes[c], q.values[i][c])
    requires forall k, x :: o.compareOpaque(k, x, x) == 0
    ensures ContainsExactlyOutcome(ColumnComparators(q.columnTypes, o), q, ExpectedFormRows(q.values)) == Ok(Holds)
  {
    var cmp := ColumnComparators(q.columnTypes, o);
    var expected := ExpectedFormRows(q.values);
    forall x | 0 <= x < |expected|
      ensures RowDefined(cmp, expected[x], q.values[x]) && RowMatches(cmp, expected[x], q.values[x])
    {
      forall c | 0 <= c < |expected[x]|
        ensures CellDefined(cmp, c, expected[x][c], q.values[x][c]) && CellMatches(cmp, c, expected[x][c], q.values[x][c])
      {
        var v := q.values[x][c];
        ValueComparator.CompareReflexive(q.columnTypes[c], v, o);
        assert Alternatives(expected[x][c]) == [ValueComparator.ExpectedForm(v)];
        assert cmp(c, v, Alternatives(expected[x][c])[0]) == Ok(0);
      }
    }
    ContainsExactlySpec(cmp, q, expected);
  }

  // ---------------------------------------------------------------------
  // Lemmas: matches

  /**
   * With order kept, ignoreExcessRows changes nothing: containsExactly
   * already demands as many rows as expected.
   */
  lemma OrderedMatchIgnoresExcessFlag(cmp: Comparator, q: QueryResult, expectedTypes: Option<seq<JdbcType>>,
                                      rows: Result<seq<seq<Value>>>)
    ensures MatchesOutcome(cmp, q, expectedTypes, rows, false, true) ==
      MatchesOutcome(cmp, q, expectedTypes, rows, false, false)
  {
    if rows.Ok? && ContainsExactlyOutcome(cmp, q, AsExpected(rows.value)) == Ok(Holds) {
      assert |q.values| == |AsExpected(rows.value)|;
    }
  }

  /**
   * With order ignored and excess rows not ignored, matches holds exactly
   * when containsOnly does; with excess rows ignored, exactly when contains does.
   */
  lemma UnorderedMatchSpec(cmp: Comparator, q: QueryResult, rows: seq<seq<Value>>)
    ensures MatchesOutcome(cmp, q, None, Ok(rows), true, false) == Ok(Holds) <==>
      ContainsOnlyOutcome(cmp, q, AsExpected(rows)) == Ok(Holds)
    ensures MatchesOutcome(cmp, q, None, Ok(rows), true, true) == ContainsOutcome(cmp, q, AsExpected(rows))
  {
  }

  /** With the expected types given, matches holds only for a result of exactly those column types. */
  lemma MatchesChecksTypes(cmp: Comparator, q: QueryResult, types: seq<JdbcType>, rows: Result<seq<seq<Value>>>,
                           ignoreOrder: bool, ignoreExcessRows: bool)
    ensures MatchesOutcome(cmp, q, Some(types), rows, ignoreOrder, ignoreExcessRows) == Ok(Holds) ==>
      q.columnTypes == types && rows.Ok?
  {
  }

  // ---------------------------------------------------------------------
  // Lemmas: Row.toString

  /** The text of each value, in order. */
  function Texts(values: seq<Value>, format: Value -> string): (r: seq<string>)
    ensures |r| == |values| && forall i :: 0 <= i < |values| ==> r[i] == ValueText(values[i], format)
  {
    seq(|values|, i requires 0 <= i < |values| => ValueText(values[i], format))
  }

  /** Row.toString is the values' texts joined by '|', with a final '|' after the last. */
  lemma {:induction false} RowTextIsJoin(values: seq<Value>, format: Value -> string)
    ensures RowText(values, format) == Join(Texts(values, format) + [""], "|")
  {
    if values != [] {
      RowTextIsJoin(values[1..], format);
      var texts := Texts(values, format);
      assert Texts(values[1..], format) == texts[1..];
      assert texts + [""] == [texts[0]] + (texts[1..] + [""]);
      JoinConcat([texts[0]], texts[1..] + [""], "|");
    }
  }

  /**
   * When no value's text holds '|', splitting Row.toString on '|' gives
   * back the texts, and an empty last piece after the final '|'.
   */
  lemma RowTextSplits(values: seq<Value>, format: Value -> string)
    requires forall i :: 0 <= i < |values| ==> '|' !in ValueText(values[i], format)
    ensures SplitOn(RowText(values, format), "|") == Texts(values, format) + [""]
  {
    var parts := TextsWithEnd(values, format);
    assert RowText(values, format) == Join(parts, "|") by {
      RowTextIsJoin(values, format);
    }
    SplitJoinChar(parts, '|');
  }

  /** The texts and the empty piece after the final bar, none holding '|'. */
  lemma TextsWithEnd(values: seq<Value>, format: Value -> string) returns (parts: seq<string>)
    requires forall i :: 0 <= i < |values| ==> '|' !in ValueText(values[i], format)
    ensures parts == Texts(values, format) + [""]
    ensures |parts| >= 1 && forall k :: 0 <= k < |parts| ==> '|' !in parts[k]
  {
    parts := Texts(values, format) + [""];
  }

  /** A null prints as "null": the row (null, "a") prints as "null|a|". */
  lemma RowTextExample(format: Value -> string)
    ensures RowText([Null, Str("a")], format) == "null|a|"
  {
    assert [Null, Str("a")][1..] == [Str("a")] && [Str("a")][1..] == [];
  }
}
