/**
 * QueryResult: the column types, the column names and the rows a query
 * returned. Columns are addressed by SQL index (from 1); rows hold one
 * value per column. The builder collects types, names and rows and checks
 * each added row's arity.
 */
module QueryResults {
  import opened Wrappers
  import opened JdbcTypes
  import opened Values

  /**
   * The column names are kept as the inverse of the name-to-index BiMap:
   * SQL index to name. A bijection, so no two indices carry one name.
   */
  datatype QueryResult = QueryResult(columnTypes: seq<JdbcType>, columnNames: map<int, string>, values: seq<seq<Value>>)

  /** Every row has one value per column. */
  predicate WellFormed(q: QueryResult)
  {
    forall i :: 0 <= i < |q.values| ==> |q.values[i]| == |q.columnTypes|
  }

  /** No two indices carry the same name. */
  predicate Injective(names: map<int, string>)
  {
    forall k, k' :: k in names && k' in names && k != k' ==> names[k] != names[k']
  }

  /** toSqlIndex: the SQL index of a 0-based column index. */
  function ToSqlIndex(index: int): (r: int)
    ensures FromSqlIndex(r) == index
  {
    index + 1
  }

  /** fromSqlIndex: the 0-based index of a SQL column index. */
  function FromSqlIndex(index: int): int
  {
    index - 1
  }

  predicate ValidSqlIndex(q: QueryResult, sqlIndex: int)
  {
    1 <= sqlIndex <= |q.columnTypes|
  }

  /** getColumnType: the type of a column, by SQL index; a bad index is out of bounds. */
  function GetColumnType(q: QueryResult, sqlIndex: int): (r: Result<JdbcType>)
    ensures r.Ok? <==> ValidSqlIndex(q, sqlIndex)
    ensures r.Fail? ==> r.error == IndexOutOfBounds
    ensures r.Ok? ==> r.value == q.columnTypes[sqlIndex - 1]
  {
    var index := FromSqlIndex(sqlIndex);
    if 0 <= index < |q.columnTypes| then Ok(q.columnTypes[index]) else Fail(IndexOutOfBounds)
  }

  /** Whether every row has a value at a 0-based position. */
  predicate EveryRowHas(q: QueryResult, index: int)
  {
    q.values == [] || (0 <= index && forall i :: 0 <= i < |q.values| ==> index < |q.values[i]|)
  }

  /**
   * column: the values of one column, one per row, in row order; a row
   * without that position is out of bounds.
   */
  function Column(q: QueryResult, sqlIndex: int): (r: Result<seq<Value>>)
    ensures r.Ok? <==> EveryRowHas(q, sqlIndex - 1)
    ensures r.Fail? ==> r.error == IndexOutOfBounds
    ensures r.Ok? ==> |r.value| == |q.values|
    ensures r.Ok? ==> forall i :: 0 <= i < |q.values| ==> r.value[i] == q.values[i][sqlIndex - 1]
  {
    var index := FromSqlIndex(sqlIndex);
    if q.values == [] then Ok([])
    else if EveryRowHas(q, index) then Ok(ValuesAt(q.values, index))
    else Fail(IndexOutOfBounds)
  }

  function ValuesAt(rows: seq<seq<Value>>, index: nat): (r: seq<Value>)
    requires forall i :: 0 <= i < |rows| ==> index < |rows[i]|
    ensures |r| == |rows| && forall i :: 0 <= i < |rows| ==> r[i] == rows[i][index]
  {
    seq(|rows|, i requires 0 <= i < |rows| => rows[i][index])
  }

  /** forSingleIntegerValue: one INTEGER column, one row holding the value, no names. */
  function ForSingleIntegerValue(value: int): (r: QueryResult)
    ensures WellFormed(r) && r.columnTypes == [INTEGER] && |r.values| == 1
    ensures Column(r, 1) == Ok([Int(value)])
  {
    var r := QueryResult([INTEGER], map[], [[Int(value)]]);
    assert ValuesAt(r.values, 0) == [Int(value)];
    r
  }

  /** forSingleValue: one column of the given type, one row holding the value. */
  function ForSingleValue(t: JdbcType, value: Value): (r: QueryResult)
    ensures WellFormed(r) && r.columnTypes == [t] && |r.values| == 1
    ensures Column(r, 1) == Ok([value])
  {
    var r := QueryResult([t], map[], [[value]]);
    assert ValuesAt(r.values, 0) == [value];
    r
  }

  /** empty: one INTEGER column and no rows. */
  function Empty(): (r: QueryResult)
    ensures WellFormed(r) && r.columnTypes == [INTEGER] && r.values == []
    ensures forall k :: Column(r, k) == Ok([])
  {
    QueryResult([INTEGER], map[], [])
  }

  // ---------------------------------------------------------------------
  // Column names

  /**
   * BiMap.put(name, index) with an index not yet bound: the name leaves any
   * index it had and is bound to the new one. A null name (None) leaves no
   * trace here, since a nameless index and one named null both look up as
   * null.
   */
  function Put(names: map<int, string>, name: Option<string>, index: int): map<int, string>
  {
    var others := map k | k in names && Some(names[k]) != name :: names[k];
    if name.Some? then others[index := name.value] else others
  }

  /** The BiMap the builder fills: each name put with its SQL index, in order. */
  function NameIndexes(names: seq<Option<string>>): (r: map<int, string>)
    ensures Injective(r)
    ensures IndexedBy(r, names)
  {
    if names == [] then map[]
    else
      var n := |names|;
      var prefix := NameIndexes(names[..n - 1]);
      PutKeeps(prefix, names[..n - 1], names[n - 1]);
      Put(prefix, names[n - 1], n)
  }

  /** Every name in the BiMap is the name at its 1-based index. */
  predicate IndexedBy(r: map<int, string>, names: seq<Option<string>>)
  {
    forall k :: k in r ==> 1 <= k <= |names| && names[k - 1] == Some(r[k])
  }

  /** Putting the next name keeps the BiMap one-to-one and indexed by the longer list. */
  lemma PutKeeps(prefix: map<int, string>, init: seq<Option<string>>, name: Option<string>)
    requires Injective(prefix) && IndexedBy(prefix, init)
    ensures Injective(Put(prefix, name, |init| + 1))
    ensures IndexedBy(Put(prefix, name, |init| + 1), init + [name])
  {
    var names := init + [name];
    assert forall k :: 0 <= k < |init| ==> names[k] == init[k];
  }

  /** The projected name of a SQL index: its name in the BiMap, or null. */
  function NameAt(names: map<int, string>, sqlIndex: int): Option<string>
  {
    if sqlIndex in names then Some(names[sqlIndex]) else None
  }

  // ---------------------------------------------------------------------
  // The builder

  /** QueryResultBuilder: the column types and names, and the rows added so far. */
  class QueryResultBuilder {
    var columnTypes: seq<JdbcType>
    var columnNames: map<int, string>
    var values: seq<seq<Value>>

    ghost predicate Valid()
      reads this
    {
      WellFormed(Build()) && Injective(columnNames)
    }

    /** The builder's state with no columns; filled in by Create. */
    constructor Init()
      ensures columnTypes == [] && columnNames == map[] && values == []
      ensures Valid()
    {
      columnTypes := [];
      columnNames := map[];
      values := [];
    }

    /**
     * QueryResultBuilder(columnTypes, columnNames): as many names as types
     * (IllegalState otherwise); each name gets its 1-based index.
     */
    static method Create(types: seq<JdbcType>, names: seq<Option<string>>) returns (r: Result<QueryResultBuilder>)
      ensures r.Fail? <==> |types| != |names|
      ensures r.Fail? ==> r.error == IllegalState
      ensures r.Ok? ==> fresh(r.value) && r.value.Valid()
      ensures r.Ok? ==> r.value.columnTypes == types && r.value.columnNames == NameIndexes(names)
      ensures r.Ok? ==> r.value.values == []
    {
      if |types| != |names| {
        return Fail(IllegalState);
      }
      var b := new QueryResultBuilder.Init();
      b.columnTypes := types;
      var sqlColumnIndex := 1;
      for i := 0 to |names|
        invariant sqlColumnIndex == i + 1
        invariant b.columnTypes == types && b.values == []
        invariant b.columnNames == NameIndexes(names[..i])
      {
        assert names[..i + 1][..i] == names[..i];
        b.columnNames := Put(b.columnNames, names[i], sqlColumnIndex);
        sqlColumnIndex := sqlColumnIndex + 1;
      }
      assert names[..|names|] == names;
      return Ok(b);
    }

    /** addRow: a row of the wrong arity is an IllegalState and nothing is added. */
    method AddRow(row: seq<Value>) returns (r: Result<()>)
      requires Valid()
      modifies this
      ensures Valid()
      ensures columnTypes == old(columnTypes) && columnNames == old(columnNames)
      ensures r.Fail? <==> |row| != |columnTypes|
      ensures r.Fail? ==> r.error == IllegalState && values == old(values)
      ensures r.Ok? ==> values == old(values) + [row]
    {
      if |row| != |columnTypes| {
        return Fail(IllegalState);
      }
      values := values + [row];
      return Ok(());
    }

    /** build: the result holding the builder's types, names and rows. */
    function Build(): (q: QueryResult)
      reads this
      ensures q.columnTypes == columnTypes && q.columnNames == columnNames && q.values == values
    {
      QueryResult(columnTypes, columnNames, values)
    }
  }

  // ---------------------------------------------------------------------
  // Projection

  /** The values of a row at the requested SQL indices, in the requested order. */
  function ProjectRow(row: seq<Value>, sqlIndexes: seq<int>): seq<Value>
    requires forall j :: 0 <= j < |sqlIndexes| ==> 1 <= sqlIndexes[j] <= |row|
  {
    seq(|sqlIndexes|, j requires 0 <= j < |sqlIndexes| => row[sqlIndexes[j] - 1])
  }

  predicate AllValid(q: QueryResult, sqlIndexes: seq<int>)
  {
    forall j :: 0 <= j < |sqlIndexes| ==> ValidSqlIndex(q, sqlIndexes[j])
  }

  predicate RowsHave(q: QueryResult, sqlIndexes: seq<int>)
  {
    forall i, j :: 0 <= i < |q.values| && 0 <= j < |sqlIndexes| ==> 1 <= sqlIndexes[j] <= |q.values[i]|
  }

  /**
   * project(sqlColumnIndexes): the columns at the requested indices, in the
   * requested order (an index may repeat), with their types and names; an
   * index outside the columns, or a row too short for it, is out of bounds.
   */
  function Projected(q: QueryResult, sqlIndexes: seq<int>): (r: Result<QueryResult>)
    ensures r.Fail? ==> r.error == IndexOutOfBounds
  {
    if !AllValid(q, sqlIndexes) || !RowsHave(q, sqlIndexes) then Fail(IndexOutOfBounds)
    else
      Ok(QueryResult(ProjectedTypes(q, sqlIndexes), NameIndexes(ProjectedNames(q, sqlIndexes)), ProjectedRows(q, sqlIndexes)))
  }

  function ProjectedTypes(q: QueryResult, sqlIndexes: seq<int>): seq<JdbcType>
    requires AllValid(q, sqlIndexes)
  {
    seq(|sqlIndexes|, j requires 0 <= j < |sqlIndexes| => q.columnTypes[sqlIndexes[j] - 1])
  }

  function ProjectedNames(q: QueryResult, sqlIndexes: seq<int>): seq<Option<string>>
  {
    seq(|sqlIndexes|, j requires 0 <= j < |sqlIndexes| => NameAt(q.columnNames, sqlIndexes[j]))
  }

  function ProjectedRows(q: QueryResult, sqlIndexes: seq<int>): seq<seq<Value>>
    requires RowsHave(q, sqlIndexes)
  {
    seq(|q.values|, i requires 0 <= i < |q.values| => ProjectRow(q.values[i], sqlIndexes))
  }

  /** project, with the loops of the source: types and names first, then row by row. */
  method Project(q: QueryResult, sqlIndexes: seq<int>) returns (r: Result<QueryResult>)
    ensures r == Projected(q, sqlIndexes)
  {
    var types: seq<JdbcType> := [];
    var names: seq<Option<string>> := [];
    for j := 0 to |sqlIndexes|
      invariant |types| == |names| == j
      invariant forall j' :: 0 <= j' < j ==> ValidSqlIndex(q, sqlIndexes[j'])
      invariant forall j' :: 0 <= j' < j ==> types[j'] == q.columnTypes[sqlIndexes[j'] - 1]
      invariant forall j' :: 0 <= j' < j ==> names[j'] == NameAt(q.columnNames, sqlIndexes[j'])
    {
      var index := FromSqlIndex(sqlIndexes[j]);
      if !(0 <= index < |q.columnTypes|) {
        return Fail(IndexOutOfBounds);
      }
      types := types + [q.columnTypes[index]];
      names := names + [NameAt(q.columnNames, sqlIndexes[j])];
    }
    var created := QueryResultBuilder.Create(types, names);
    var builder := created.value;
    for i := 0 to |q.values|
      invariant builder.columnTypes == types && builder.columnNames == NameIndexes(names)
      invariant builder.Valid()
      invariant |builder.values| == i
      invariant forall i' :: 0 <= i' < i ==> RowHas(q.values[i'], sqlIndexes)
      invariant forall i' :: 0 <= i' < i ==> builder.values[i'] == ProjectRow(q.values[i'], sqlIndexes)
    {
      var projected := ProjectValues(q.values[i], sqlIndexes);
      if projected.None? {
        return Fail(IndexOutOfBounds);
      }
      var added := builder.AddRow(projected.value);
    }
    ProjectedOk(q, sqlIndexes, types, names, builder.values);
    r := Ok(builder.Build());
  }

  /** Columns and rows gathered one by one make up the projection. */
  lemma ProjectedOk(q: QueryResult, sqlIndexes: seq<int>, types: seq<JdbcType>, names: seq<Option<string>>, rows: seq<seq<Value>>)
    requires |types| == |names| == |sqlIndexes| && |rows| == |q.values|
    requires forall j :: 0 <= j < |sqlIndexes| ==>
      ValidSqlIndex(q, sqlIndexes[j]) && types[j] == q.columnTypes[sqlIndexes[j] - 1]
    requires forall j :: 0 <= j < |sqlIndexes| ==> names[j] == NameAt(q.columnNames, sqlIndexes[j])
    requires forall i :: 0 <= i < |rows| ==>
      RowHas(q.values[i], sqlIndexes) && rows[i] == ProjectRow(q.values[i], sqlIndexes)
    ensures Projected(q, sqlIndexes) == Ok(QueryResult(types, NameIndexes(names), rows))
  {
    TypesGathered(q, sqlIndexes, types);
    RowsGathered(q, sqlIndexes, rows);
    assert names == ProjectedNames(q, sqlIndexes);
  }

  lemma TypesGathered(q: QueryResult, sqlIndexes: seq<int>, types: seq<JdbcType>)
    requires |types| == |sqlIndexes|
    requires forall j :: 0 <= j < |sqlIndexes| ==>
      ValidSqlIndex(q, sqlIndexes[j]) && types[j] == q.columnTypes[sqlIndexes[j] - 1]
    ensures AllValid(q, sqlIndexes) && types == ProjectedTypes(q, sqlIndexes)
  {
  }

  lemma RowsGathered(q: QueryResult, sqlIndexes: seq<int>, rows: seq<seq<Value>>)
    requires |rows| == |q.values|
    requires forall i :: 0 <= i < |rows| ==>
      RowHas(q.values[i], sqlIndexes) && rows[i] == ProjectRow(q.values[i], sqlIndexes)
    ensures RowsHave(q, sqlIndexes) && rows == ProjectedRows(q, sqlIndexes)
  {
  }

  /** The inner loop of project: one row's values at the requested indices, or None when the row is too short. */
  method ProjectValues(row: seq<Value>, sqlIndexes: seq<int>) returns (r: Option<seq<Value>>)
    ensures r.Some? <==> RowHas(row, sqlIndexes)
    ensures r.Some? ==> r.value == ProjectRow(row, sqlIndexes)
  {
    var projected: seq<Value> := [];
    for j := 0 to |sqlIndexes|
      invariant |projected| == j
      invariant forall j' :: 0 <= j' < j ==> 1 <= sqlIndexes[j'] <= |row| && projected[j'] == row[sqlIndexes[j'] - 1]
    {
      var index := FromSqlIndex(sqlIndexes[j]);
      if !(0 <= index < |row|) {
        return None;
      }
      projected := projected + [row[index]];
    }
    return Some(projected);
  }

  predicate RowHas(row: seq<Value>, sqlIndexes: seq<int>)
  {
    forall j :: 0 <= j < |sqlIndexes| ==> 1 <= sqlIndexes[j] <= |row|
  }

  // ---------------------------------------------------------------------
  // Lemmas

  /** The index conversions are inverse to each other, both ways round. */
  lemma SqlIndexRoundTrip(index: int)
    ensures FromSqlIndex(ToSqlIndex(index)) == index
    ensures ToSqlIndex(FromSqlIndex(index)) == index
  {
  }

  /** In a well-formed result every column index names a column with one value per row. */
  lemma ColumnOfWellFormed(q: QueryResult, sqlIndex: int)
    requires WellFormed(q) && ValidSqlIndex(q, sqlIndex)
    ensures Column(q, sqlIndex).Ok? && |Column(q, sqlIndex).value| == |q.values|
  {
  }

  /**
   * Projecting a well-formed result succeeds exactly when every index is a
   * column; the projection keeps the row count, has one column per
   * requested index, and its j-th column is the requested column of the
   * original, with that column's type.
   */
  lemma ProjectSpec(q: QueryResult, sqlIndexes: seq<int>)
    requires WellFormed(q)
    ensures Projected(q, sqlIndexes).Ok? <==> AllValid(q, sqlIndexes)
    ensures var r := Projected(q, sqlIndexes);
      r.Ok? ==>
        WellFormed(r.value) && |r.value.values| == |q.values| && |r.value.columnTypes| == |sqlIndexes| &&
        forall j :: 0 <= j < |sqlIndexes| ==>
          r.value.columnTypes[j] == q.columnTypes[sqlIndexes[j] - 1] &&
          Column(r.value, ToSqlIndex(j)) == Column(q, sqlIndexes[j])
  {
    var r := Projected(q, sqlIndexes);
    if AllValid(q, sqlIndexes) {
      assert RowsHave(q, sqlIndexes);
      forall j | 0 <= j < |sqlIndexes|
        ensures Column(r.value, ToSqlIndex(j)) == Column(q, sqlIndexes[j])
      {
        assert EveryRowHas(q, sqlIndexes[j] - 1);
        assert EveryRowHas(r.value, j);
        var left := Column(r.value, ToSqlIndex(j)).value;
        var right := Column(q, sqlIndexes[j]).value;
        assert |left| == |right|;
        forall i | 0 <= i < |left|
          ensures left[i] == right[i]
        {
          assert left[i] == r.value.values[i][j] == ProjectRow(q.values[i], sqlIndexes)[j];
        }
        assert left == right;
      }
    } else {
      assert Projected(q, sqlIndexes).Fail?;
    }
  }

  /**
   * With distinct names the builder gives name k the index k + 1, and
   * nothing else.
   */
  lemma {:induction false} DistinctNameIndexes(names: seq<Option<string>>)
    requires forall k :: 0 <= k < |names| ==> names[k].Some?
    requires forall k, k' :: 0 <= k < k' < |names| ==> names[k] != names[k']
    ensures forall k :: k in NameIndexes(names) <==> 1 <= k <= |names|
  {
    if names != [] {
      var n := |names|;
      var prefix := names[..n - 1];
      DistinctNameIndexes(prefix);
      var m := NameIndexes(prefix);
      forall k | k in m
        ensures Some(m[k]) != names[n - 1]
      {
        assert prefix[k - 1] == names[k - 1];
      }
    }
  }

  /** A repeated name keeps only its last index: ["a", "a"] names column 2 only. */
  lemma RepeatedNameKeepsLast()
    ensures NameIndexes([Some("a"), Some("a")]) == map[2 := "a"]
  {
    assert [Some("a"), Some("a")][..1] == [Some("a")];
    assert [Some("a")][..0] == [];
    assert NameIndexes([Some("a")]) == map[1 := "a"];
  }
}
