/**
 * The older InsertLoader: one INSERT statement per row,
 * "INSERT INTO <table> VALUES (v1,...,vn)", with the same writing of values.
 */
module LegacyInsertLoaders {
  import opened Wrappers
  import opened Strings
  import opened JdbcTypes
  import opened Values
  import opened InsertLoaders

  /** insertSql(row): a row of the wrong size is an IllegalArgumentException, checked before any value is written. */
  function LegacyInsertSql(tableName: string, columnTypes: seq<JdbcType>, row: seq<Value>, show: ShowOpaque): (r: Result<string>)
    ensures |row| != |columnTypes| ==> r == Fail(IllegalArgument)
    ensures r.Ok? <==> |row| == |columnTypes| && ValueTexts(columnTypes, row, show).Ok?
    ensures r.Ok? ==> r.value == "INSERT INTO " + tableName + " VALUES (" + Join(ValueTexts(columnTypes, row, show).value, ",") + ")"
    ensures r.Fail? ==> r.error == IllegalArgument
  {
    if |row| != |columnTypes| then Fail(IllegalArgument)
    else
      var texts := ValueTexts(columnTypes, row, show);
      if texts.Fail? then Fail(texts.error)
      else Ok("INSERT INTO " + tableName + " VALUES (" + Join(texts.value, ",") + ")")
  }

  /** load(batch): one statement per row, in order, until a row's statement cannot be written. */
  function LegacyLoadRun(tableName: string, columnTypes: seq<JdbcType>, batch: seq<seq<Value>>, show: ShowOpaque): Run
  {
    if batch == [] then Run([], None)
    else
      var sql := LegacyInsertSql(tableName, columnTypes, batch[0], show);
      if sql.Fail? then Run([], Some(sql.error))
      else
        var rest := LegacyLoadRun(tableName, columnTypes, batch[1..], show);
        Run([sql.value] + rest.statements, rest.failure)
  }

  /** The loader of one table; `executed` is the SQL sent through the query executor so far. */
  class LegacyInsertLoader {
    const tableName: string
    const columnTypes: seq<JdbcType>
    var executed: seq<string>

    constructor(tableName: string, columnTypes: seq<JdbcType>)
      ensures this.tableName == tableName && this.columnTypes == columnTypes && executed == []
    {
      this.tableName := tableName;
      this.columnTypes := columnTypes;
      executed := [];
    }

    method Load(batch: seq<seq<Value>>, show: ShowOpaque) returns (failure: Option<Error>)
      modifies this
      ensures executed == old(executed) + LegacyLoadRun(tableName, columnTypes, batch, show).statements
      ensures failure == LegacyLoadRun(tableName, columnTypes, batch, show).failure
    {
      for i := 0 to |batch|
        invariant var whole := LegacyLoadRun(tableName, columnTypes, batch, show);
          var rest := LegacyLoadRun(tableName, columnTypes, batch[i..], show);
          whole.failure == rest.failure && old(executed) + whole.statements == executed + rest.statements
      {
        LegacyStep(tableName, columnTypes, batch, i, show);
        var sql := LegacyInsertSql(tableName, columnTypes, batch[i], show);
        if sql.Fail? {
          return Some(sql.error);
        }
        AppendStatement(executed, sql.value, LegacyLoadRun(tableName, columnTypes, batch[i + 1..], show).statements);
        executed := executed + [sql.value];
      }
      assert batch[|batch|..] == [];
      failure := None;
    }
  }

  // ---------------------------------------------------------------------
  // Lemmas

  /** The run from row i on: a row that cannot be written stops it, any other is executed first. */
  lemma LegacyStep(tableName: string, columnTypes: seq<JdbcType>, batch: seq<seq<Value>>, i: nat, show: ShowOpaque)
    requires i < |batch|
    ensures var here := LegacyLoadRun(tableName, columnTypes, batch[i..], show);
      var rest := LegacyLoadRun(tableName, columnTypes, batch[i + 1..], show);
      var sql := LegacyInsertSql(tableName, columnTypes, batch[i], show);
      (sql.Fail? ==> here == Run([], Some(sql.error))) &&
      (sql.Ok? ==> here == Run([sql.value] + rest.statements, rest.failure))
  {
    assert batch[i..][0] == batch[i] && batch[i..][1..] == batch[i + 1..];
  }

  /**
   * When every row can be written, exactly one statement per row, in batch
   * order; otherwise the first row that cannot be written stops the load
   * with an IllegalArgumentException after the statements of the rows
   * before it.
   */
  lemma {:induction false} LegacyLoadPerRow(tableName: string, columnTypes: seq<JdbcType>, batch: seq<seq<Value>>, show: ShowOpaque)
    ensures var run := LegacyLoadRun(tableName, columnTypes, batch, show);
      ((forall i :: 0 <= i < |batch| ==> LegacyInsertSql(tableName, columnTypes, batch[i], show).Ok?) ==>
        (run.failure == None && |run.statements| == |batch| &&
         forall i :: 0 <= i < |batch| ==> run.statements[i] == LegacyInsertSql(tableName, columnTypes, batch[i], show).value)) &&
      (run.failure.Some? ==> (run.failure == Some(IllegalArgument) && |run.statements| < |batch| &&
        LegacyInsertSql(tableName, columnTypes, batch[|run.statements|], show).Fail?))
  {
    if forall i :: 0 <= i < |batch| ==> LegacyInsertSql(tableName, columnTypes, batch[i], show).Ok? {
      LegacyLoadAll(tableName, columnTypes, batch, show);
    }
    LegacyLoadStops(tableName, columnTypes, batch, show);
  }

  lemma {:induction false} LegacyLoadAll(tableName: string, columnTypes: seq<JdbcType>, batch: seq<seq<Value>>, show: ShowOpaque)
    requires forall i :: 0 <= i < |batch| ==> LegacyInsertSql(tableName, columnTypes, batch[i], show).Ok?
    ensures var run := LegacyLoadRun(tableName, columnTypes, batch, show);
      run.failure == None && |run.statements| == |batch| &&
      forall i :: 0 <= i < |batch| ==> run.statements[i] == LegacyInsertSql(tableName, columnTypes, batch[i], show).value
  {
    if batch != [] {
      LegacyLoadAll(tableName, columnTypes, batch[1..], show);
    }
  }

  lemma {:induction false} LegacyLoadStops(tableName: string, columnTypes: seq<JdbcType>, batch: seq<seq<Value>>, show: ShowOpaque)
    ensures var run := LegacyLoadRun(tableName, columnTypes, batch, show);
      run.failure.Some? ==> (run.failure == Some(IllegalArgument) && |run.statements| < |batch| &&
        LegacyInsertSql(tableName, columnTypes, batch[|run.statements|], show).Fail?)
  {
    if batch != [] {
      LegacyLoadStops(tableName, columnTypes, batch[1..], show);
      var run := LegacyLoadRun(tableName, columnTypes, batch, show);
      var sql := LegacyInsertSql(tableName, columnTypes, batch[0], show);
      if sql.Ok? && run.failure.Some? {
        assert batch[|run.statements|] == batch[1..][|run.statements| - 1];
      }
    }
  }

  /**
   * The two versions agree on a single row: the older statement for a row
   * is the newer statement for a chunk holding only that row.
   */
  lemma LegacyIsSingleRowChunk(tableName: string, columnTypes: seq<JdbcType>, row: seq<Value>, show: ShowOpaque)
    ensures LegacyInsertSql(tableName, columnTypes, row, show) == InsertSql(tableName, columnTypes, [row], show)
  {
    var one := RowTuple(columnTypes, row, show);
    assert RowTuples(columnTypes, [row], show) == if one.Fail? then Fail(one.error) else Ok([one.value]) by {
      var none: seq<seq<Value>> := [];
      assert [row][0] == row && [row][1..] == none;
      assert RowTuples(columnTypes, none, show) == Ok([]);
      if one.Ok? {
        assert [one.value] + [] == [one.value];
      }
    }
    if one.Ok? {
      var values := Join(ValueTexts(columnTypes, row, show).value, ",");
      assert Join([one.value], ",") == one.value;
      ValuesPrefix(tableName, values);
    }
  }

  lemma ValuesPrefix(tableName: string, values: string)
    ensures "INSERT INTO " + tableName + " VALUES " + ("(" + values + ")") ==
      "INSERT INTO " + tableName + " VALUES (" + values + ")"
  {
  }
}
