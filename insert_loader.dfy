/**
 * InsertLoader: loads rows into a JDBC table with plain INSERT statements,
 * up to ROWS_PER_INSERT rows per statement, each value written as SQL text
 * according to its column type.
 */
module InsertLoaders {
  import opened Wrappers
  import opened Strings
  import opened JdbcTypes
  import opened Values
  import opened Batching
  import JdbcTableManagers

  const ROWS_PER_INSERT: nat := 100

  /** Object.toString of the values whose text the model does not fix (floating point, decimals, dates). */
  type ShowOpaque = (OpaqueKind, string) -> string

  predicate IsStringType(t: JdbcType)
  {
    t == VARCHAR || t == CHAR || t == LONGNVARCHAR
  }

  predicate IsNumericType(t: JdbcType)
  {
    t == TINYINT || t == SMALLINT || t == INTEGER || t == BIGINT || t == FLOAT || t == REAL || t == DOUBLE || t == DECIMAL
  }

  /**
   * asStringValue: null is "null" whatever the type; the string types are
   * the value's text in single quotes, not escaped; the numeric types the
   * value's text; any other type is an IllegalArgumentException.
   */
  function AsStringValue(t: JdbcType, v: Value, show: ShowOpaque): (r: Result<string>)
    ensures v == Null ==> r == Ok("null")
    ensures v != Null && IsStringType(t) ==> r == Ok("'" + Show(v, show) + "'")
    ensures v != Null && IsNumericType(t) ==> r == Ok(Show(v, show))
    ensures r.Fail? <==> v != Null && !IsStringType(t) && !IsNumericType(t)
    ensures r.Fail? ==> r.error == IllegalArgument
  {
    if v == Null then Ok("null")
    else if IsStringType(t) then Ok("'" + Show(v, show) + "'")
    else if IsNumericType(t) then Ok(Show(v, show))
    else Fail(IllegalArgument)
  }

  /** The texts of a row's values, left to right; the first value that cannot be written fails the row. */
  function ValueTexts(columnTypes: seq<JdbcType>, row: seq<Value>, show: ShowOpaque): (r: Result<seq<string>>)
    requires |columnTypes| == |row|
    ensures r.Ok? <==> forall i :: 0 <= i < |row| ==> AsStringValue(columnTypes[i], row[i], show).Ok?
    ensures r.Ok? ==> |r.value| == |row| && forall i :: 0 <= i < |row| ==> r.value[i] == AsStringValue(columnTypes[i], row[i], show).value
    ensures r.Fail? ==> r.error == IllegalArgument
  {
    if row == [] then Ok([])
    else
      var first := AsStringValue(columnTypes[0], row[0], show);
      if first.Fail? then Fail(first.error)
      else
        var rest := ValueTexts(columnTypes[1..], row[1..], show);
        if rest.Fail? then Fail(rest.error) else Ok([first.value] + rest.value)
  }

  /** One row as "(v1,...,vn)"; a row whose size differs from the column count is an IllegalArgumentException. */
  function RowTuple(columnTypes: seq<JdbcType>, row: seq<Value>, show: ShowOpaque): (r: Result<string>)
    ensures |row| != |columnTypes| ==> r == Fail(IllegalArgument)
    ensures r.Ok? <==> |row| == |columnTypes| && ValueTexts(columnTypes, row, show).Ok?
    ensures r.Ok? ==> r.value == "(" + Join(ValueTexts(columnTypes, row, show).value, ",") + ")"
    ensures r.Fail? ==> r.error == IllegalArgument
  {
    if |row| != |columnTypes| then Fail(IllegalArgument)
    else
      var texts := ValueTexts(columnTypes, row, show);
      if texts.Fail? then Fail(texts.error) else Ok("(" + Join(texts.value, ",") + ")")
  }

  /** The tuples of the rows, in order; the first row that fails fails them all. */
  function RowTuples(columnTypes: seq<JdbcType>, rows: seq<seq<Value>>, show: ShowOpaque): (r: Result<seq<string>>)
    ensures r.Ok? <==> forall i :: 0 <= i < |rows| ==> RowTuple(columnTypes, rows[i], show).Ok?
    ensures r.Ok? ==> |r.value| == |rows| && forall i :: 0 <= i < |rows| ==> r.value[i] == RowTuple(columnTypes, rows[i], show).value
    ensures r.Fail? ==> r.error == IllegalArgument
  {
    if rows == [] then Ok([])
    else
      var first := RowTuple(columnTypes, rows[0], show);
      if first.Fail? then Fail(first.error)
      else
        var rest := RowTuples(columnTypes, rows[1..], show);
        if rest.Fail? then Fail(rest.error) else Ok([first.value] + rest.value)
  }

  /** insertSql: "INSERT INTO <table> VALUES (..),(..)" with one tuple per row. */
  function InsertSql(tableName: string, columnTypes: seq<JdbcType>, rows: seq<seq<Value>>, show: ShowOpaque): (r: Result<string>)
    ensures r.Ok? <==> RowTuples(columnTypes, rows, show).Ok?
    ensures r.Ok? ==> r.value == "INSERT INTO " + tableName + " VALUES " + Join(RowTuples(columnTypes, rows, show).value, ",")
    ensures r.Fail? ==> r.error == IllegalArgument
  {
    var tuples := RowTuples(columnTypes, rows, show);
    if tuples.Fail? then Fail(tuples.error) else Ok("INSERT INTO " + tableName + " VALUES " + Join(tuples.value, ","))
  }

  /** The statements executed, and the exception that stopped the run, if any. */
  datatype Run = Run(statements: seq<string>, failure: Option<Error>)

  /** One statement per non-empty chunk, in order, until a chunk's statement cannot be written. */
  function ExecuteChunks(tableName: string, columnTypes: seq<JdbcType>, chunks: seq<seq<seq<Value>>>, show: ShowOpaque): Run
  {
    if chunks == [] then Run([], None)
    else if chunks[0] == [] then ExecuteChunks(tableName, columnTypes, chunks[1..], show)
    else
      var sql := InsertSql(tableName, columnTypes, chunks[0], show);
      if sql.Fail? then Run([], Some(sql.error))
      else
        var rest := ExecuteChunks(tableName, columnTypes, chunks[1..], show);
        Run([sql.value] + rest.statements, rest.failure)
  }

  /** load(batch): the batch cut into chunks of ROWS_PER_INSERT rows, one INSERT per chunk. */
  function LoadRun(tableName: string, columnTypes: seq<JdbcType>, batch: seq<seq<Value>>, show: ShowOpaque): Run
  {
    ExecuteChunks(tableName, columnTypes, Batches(batch, ROWS_PER_INSERT), show)
  }

  /** The loader of one table; `executed` is the SQL sent through the query executor so far. */
  class InsertLoader {
    const tableName: string
    const columnTypes: seq<JdbcType>
    var executed: seq<string>

    constructor(tableName: string, columnTypes: seq<JdbcType>)
      ensures this.tableName == tableName && this.columnTypes == columnTypes && executed == []
    {
      this.tableName := tableName;
      this.columnTypes := columnTypes;
      executed := [];
    }

    method Load(batch: seq<seq<Value>>, show: ShowOpaque) returns (failure: Option<Error>)
      modifies this
      ensures executed == old(executed) + LoadRun(tableName, columnTypes, batch, show).statements
      ensures failure == LoadRun(tableName, columnTypes, batch, show).failure
    {
      var chunks := JdbcTableManagers.PartitionBy(batch, ROWS_PER_INSERT);
      var i := 0;
      while i < |chunks|
        invariant 0 <= i <= |chunks|
        invariant var whole := ExecuteChunks(tableName, columnTypes, chunks, show);
          var rest := ExecuteChunks(tableName, columnTypes, chunks[i..], show);
          whole.failure == rest.failure && old(executed) + whole.statements == executed + rest.statements
      {
        ExecuteStep(tableName, columnTypes, chunks, i, show);
        if chunks[i] == [] {
          i := i + 1;
          continue;
        }
        var sql := InsertSql(tableName, columnTypes, chunks[i], show);
        if sql.Fail? {
          return Some(sql.error);
        }
        AppendStatement(executed, sql.value, ExecuteChunks(tableName, columnTypes, chunks[i + 1..], show).statements);
        executed := executed + [sql.value];
        i := i + 1;
      }
      assert chunks[i..] == [];
      failure := None;
    }
  }

  // ---------------------------------------------------------------------
  // Lemmas

  /** The run from chunk i on: an empty chunk is skipped, a failing one stops, any other is executed first. */
  lemma ExecuteStep(tableName: string, columnTypes: seq<JdbcType>, chunks: seq<seq<seq<Value>>>, i: nat, show: ShowOpaque)
    requires i < |chunks|
    ensures var here := ExecuteChunks(tableName, columnTypes, chunks[i..], show);
      var rest := ExecuteChunks(tableName, columnTypes, chunks[i + 1..], show);
      var sql := InsertSql(tableName, columnTypes, chunks[i], show);
      (chunks[i] == [] ==> here == rest) &&
      (chunks[i] != [] && sql.Fail? ==> here == Run([], Some(sql.error))) &&
      (chunks[i] != [] && sql.Ok? ==> here == Run([sql.value] + rest.statements, rest.failure))
  {
    assert chunks[i..][0] == chunks[i] && chunks[i..][1..] == chunks[i + 1..];
  }

  lemma AppendStatement(executed: seq<string>, sql: string, rest: seq<string>)
    ensures executed + ([sql] + rest) == executed + [sql] + rest
  {
  }

  lemma {:induction false} InFlatten<T>(batches: seq<seq<T>>, i: nat, x: T)
    requires i < |batches| && x in batches[i]
    ensures x in Flatten(batches)
  {
    if i > 0 {
      InFlatten(batches[1..], i - 1, x);
    }
  }

  /** When every chunk is non-empty and every row can be written, one statement per chunk and no failure. */
  lemma {:induction false} ExecuteChunksAll(tableName: string, columnTypes: seq<JdbcType>, chunks: seq<seq<seq<Value>>>, show: ShowOpaque)
    requires forall i :: 0 <= i < |chunks| ==> chunks[i] != [] && InsertSql(tableName, columnTypes, chunks[i], show).Ok?
    ensures var run := ExecuteChunks(tableName, columnTypes, chunks, show);
      run.failure == None && |run.statements| == |chunks| &&
      forall i :: 0 <= i < |chunks| ==> run.statements[i] == InsertSql(tableName, columnTypes, chunks[i], show).value
  {
    if chunks != [] {
      ExecuteChunksAll(tableName, columnTypes, chunks[1..], show);
    }
  }

  /**
   * When every row of the batch can be written, load issues ceil(n / 100)
   * statements, the i-th inserting the i-th run of at most 100 consecutive
   * rows, and these runs put together are the batch in order.
   */
  lemma LoadIssuesChunks(tableName: string, columnTypes: seq<JdbcType>, batch: seq<seq<Value>>, show: ShowOpaque)
    requires forall r :: r in batch ==> RowTuple(columnTypes, r, show).Ok?
    ensures var run := LoadRun(tableName, columnTypes, batch, show);
      var chunks := Batches(batch, ROWS_PER_INSERT);
      run.failure == None && |run.statements| == |chunks| == CeilDiv(|batch|, ROWS_PER_INSERT) &&
      Flatten(chunks) == batch && WellCut(chunks, ROWS_PER_INSERT) &&
      forall i :: 0 <= i < |chunks| ==>
        InsertSql(tableName, columnTypes, chunks[i], show).Ok? && run.statements[i] == InsertSql(tableName, columnTypes, chunks[i], show).value
  {
    var chunks := Batches(batch, ROWS_PER_INSERT);
    BatchesSpec(batch, ROWS_PER_INSERT);
    forall i | 0 <= i < |chunks|
      ensures chunks[i] != [] && InsertSql(tableName, columnTypes, chunks[i], show).Ok?
    {
      forall j | 0 <= j < |chunks[i]| ensures RowTuple(columnTypes, chunks[i][j], show).Ok? {
        InFlatten(chunks, i, chunks[i][j]);
      }
    }
    ExecuteChunksAll(tableName, columnTypes, chunks, show);
  }

  /** A row of the wrong size stops the load with an IllegalArgumentException. */
  lemma {:induction false} ExecuteChunksFails(tableName: string, columnTypes: seq<JdbcType>, chunks: seq<seq<seq<Value>>>,
                                              show: ShowOpaque, i: nat, j: nat)
    requires i < |chunks| && j < |chunks[i]| && |chunks[i][j]| != |columnTypes|
    ensures ExecuteChunks(tableName, columnTypes, chunks, show).failure == Some(IllegalArgument)
  {
    if i == 0 {
      assert chunks[0] != [];
      assert RowTuple(columnTypes, chunks[0][j], show).Fail?;
    } else if chunks[0] != [] && InsertSql(tableName, columnTypes, chunks[0], show).Fail? {
    } else {
      ExecuteChunksFails(tableName, columnTypes, chunks[1..], show, i - 1, j);
    }
  }

  /** A statement of the load: the table, then one tuple per row with each value in its column's SQL form. */
  lemma InsertSqlShape(tableName: string, columnTypes: seq<JdbcType>, rows: seq<seq<Value>>, show: ShowOpaque, i: nat, k: nat)
    requires InsertSql(tableName, columnTypes, rows, show).Ok? && i < |rows| && k < |columnTypes|
    ensures var tuples := RowTuples(columnTypes, rows, show).value;
      var texts := ValueTexts(columnTypes, rows[i], show).value;
      StartsWith(InsertSql(tableName, columnTypes, rows, show).value, "INSERT INTO " + tableName + " VALUES ") &&
      tuples[i] == "(" + Join(texts, ",") + ")" &&
      |texts| == |columnTypes| &&
      (rows[i][k] == Null ==> texts[k] == "null") &&
      (rows[i][k] != Null && IsStringType(columnTypes[k]) ==> texts[k] == "'" + Show(rows[i][k], show) + "'")
  {
    var prefix := "INSERT INTO " + tableName + " VALUES ";
    var sql := InsertSql(tableName, columnTypes, rows, show).value;
    assert sql[..|prefix|] == prefix;
  }
}
