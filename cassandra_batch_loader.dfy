/**
 * CassandraBatchLoader: rows are bound to one prepared INSERT statement and
 * sent to Cassandra in unlogged batches of at most batchRowsCount rows.
 * The session is left out; `executed` records the rows of every batch the
 * loader hands to the session, in order.
 */
module CassandraBatchLoaders {
  import opened Wrappers
  import opened Strings
  import opened Values
  import opened Batching

  /** n copies of the same text. */
  function Copies(ch: string, n: nat): (r: seq<string>)
    ensures |r| == n && forall i :: 0 <= i < n ==> r[i] == ch
  {
    seq(n, _ => ch)
  }

  /** How many copies repeatPattern writes: a count of one or less writes one. */
  function PatternCount(times: int): nat
  {
    if times <= 1 then 1 else times
  }

  /**
   * repeatPattern: the accumulator grows by ch + separator times - 1 times,
   * then ch closes it; the result is the copies joined by the separator.
   */
  method RepeatPattern(ch: string, separator: string, times: int) returns (r: string)
    ensures r == Join(Copies(ch, PatternCount(times)), separator)
  {
    var result := "";
    var i := 0;
    while i < times - 1
      invariant 0 <= i <= PatternCount(times) - 1
      invariant result + ch == Join(Copies(ch, i + 1), separator)
    {
      RepeatStep(result, ch, separator, i);
      result := result + (ch + separator);
      i := i + 1;
    }
    r := result + ch;
  }

  /** The statement the loader prepares: the columns joined by "," and the VALUES list of "?" markers. */
  function InsertQuery(tableName: string, columnNames: seq<string>): string
  {
    "INSERT INTO " + tableName + " (" + Join(columnNames, ",") + ") VALUES(" +
      Join(Copies("?", PatternCount(|columnNames|)), ",") + ")"
  }

  /** createInsertQuery. */
  method CreateInsertQuery(tableName: string, columnNames: seq<string>) returns (q: string)
    ensures q == InsertQuery(tableName, columnNames)
  {
    var markers := RepeatPattern("?", ",", |columnNames|);
    q := "INSERT INTO " + tableName + " (" + Join(columnNames, ",") + ") VALUES(" + markers + ")";
  }

  /** The rows bound so far, and the exception that stopped the load, if any. */
  datatype BatchRun = BatchRun(batches: seq<seq<seq<Value>>>, failure: Option<Error>)

  /**
   * The rest of load() from a pending batch: before each row a full batch is
   * sent; a row of the wrong size stops the load with an
   * IllegalStateException; at the end a non-empty batch is sent.
   */
  function LoadFrom(rows: seq<seq<Value>>, batchRowsCount: nat, columnsCount: nat, batch: seq<seq<Value>>): BatchRun
  {
    if rows == [] then
      if |batch| > 0 then BatchRun([batch], None) else BatchRun([], None)
    else
      var flushed := if |batch| >= batchRowsCount then [batch] else [];
      var pending := if |batch| >= batchRowsCount then [] else batch;
      if |rows[0]| != columnsCount then BatchRun(flushed, Some(IllegalState))
      else
        var rest := LoadFrom(rows[1..], batchRowsCount, columnsCount, pending + [rows[0]]);
        BatchRun(flushed + rest.batches, rest.failure)
  }

  /** load(rows), started with an empty batch. */
  function LoadRun(rows: seq<seq<Value>>, batchRowsCount: nat, columnsCount: nat): BatchRun
  {
    LoadFrom(rows, batchRowsCount, columnsCount, [])
  }

  class CassandraBatchLoader {
    const insertQuery: string
    const columnsCount: nat
    const batchRowsCount: nat
    /** The rows of every batch executed so far, batch by batch. */
    var executed: seq<seq<seq<Value>>>

    constructor(insertQuery: string, columnsCount: nat, batchRowsCount: nat)
      requires batchRowsCount > 0
      ensures this.insertQuery == insertQuery && this.columnsCount == columnsCount
      ensures this.batchRowsCount == batchRowsCount && executed == []
    {
      this.insertQuery := insertQuery;
      this.columnsCount := columnsCount;
      this.batchRowsCount := batchRowsCount;
      executed := [];
    }

    /** load: the while loop over the rows, flushing a full batch before adding the next row. */
    method Load(rows: seq<seq<Value>>) returns (failure: Option<Error>)
      modifies this
      ensures executed == old(executed) + LoadRun(rows, batchRowsCount, columnsCount).batches
      ensures failure == LoadRun(rows, batchRowsCount, columnsCount).failure
    {
      var batch: seq<seq<Value>> := [];
      var i := 0;
      while i < |rows|
        invariant 0 <= i <= |rows|
        invariant var whole := LoadRun(rows, batchRowsCount, columnsCount);
          var rest := LoadFrom(rows[i..], batchRowsCount, columnsCount, batch);
          whole.failure == rest.failure && old(executed) + whole.batches == executed + rest.batches
      {
        assert rows[i..][1..] == rows[i + 1..];
        if |batch| >= batchRowsCount {
          executed := executed + [batch];
          batch := [];
        }
        var row := rows[i];
        if |row| != columnsCount {
          return Some(IllegalState);
        }
        batch := batch + [row];
        i := i + 1;
      }
      assert rows[i..] == [];
      if |batch| > 0 {
        executed := executed + [batch];
      }
      failure := None;
    }
  }

  /**
   * The constructor: the statement is written from the table and column
   * names, and a batch size of zero or less is an IllegalArgumentException.
   */
  method NewCassandraBatchLoader(tableName: string, columnNames: seq<string>, batchRowsCount: int)
    returns (r: Result<CassandraBatchLoader>)
    ensures r.Fail? <==> batchRowsCount <= 0
    ensures r.Fail? ==> r.error == IllegalArgument
    ensures r.Ok? ==> (fresh(r.value) && r.value.executed == [] &&
      r.value.insertQuery == InsertQuery(tableName, columnNames) &&
      r.value.columnsCount == |columnNames| && r.value.batchRowsCount == batchRowsCount)
  {
    var query := CreateInsertQuery(tableName, columnNames);
    if batchRowsCount <= 0 {
      return Fail(IllegalArgument);
    }
    var loader := new CassandraBatchLoader(query, |columnNames|, batchRowsCount);
    r := Ok(loader);
  }

  // ---------------------------------------------------------------------
  // Lemmas

  lemma {:induction false} JoinSnoc(parts: seq<string>, x: string, sep: string)
    requires |parts| >= 1
    ensures Join(parts + [x], sep) == Join(parts, sep) + sep + x
  {
    if |parts| > 1 {
      assert (parts + [x])[1..] == parts[1..] + [x];
      JoinSnoc(parts[1..], x, sep);
    }
  }

  /** One more round of repeatPattern's loop adds one more copy to the joined text. */
  lemma RepeatStep(result: string, ch: string, separator: string, i: nat)
    requires result + ch == Join(Copies(ch, i + 1), separator)
    ensures result + (ch + separator) + ch == Join(Copies(ch, i + 2), separator)
  {
    JoinSnoc(Copies(ch, i + 1), ch, separator);
    assert Copies(ch, i + 1) + [ch] == Copies(ch, i + 2);
    assert result + (ch + separator) + ch == result + ch + separator + ch;
  }

  /**
   * One "?" per column when there is at least one column: the VALUES list
   * splits on "," into exactly that many markers. With no column it still
   * holds one marker.
   */
  lemma InsertQueryMarkers(columnNames: seq<string>)
    ensures var markers := Join(Copies("?", PatternCount(|columnNames|)), ",");
      (|columnNames| >= 1 ==> SplitOn(markers, ",") == Copies("?", |columnNames|)) &&
      (|columnNames| == 0 ==> markers == "?")
  {
    var n := PatternCount(|columnNames|);
    SplitJoinChar(Copies("?", n), ',');
  }

  /** With every row of the right size, the batches are those of the pending rows followed by the rest. */
  lemma {:induction false} LoadFromBatches(rows: seq<seq<Value>>, k: nat, columnsCount: nat, batch: seq<seq<Value>>)
    requires k >= 1 && |batch| <= k
    requires forall i :: 0 <= i < |rows| ==> |rows[i]| == columnsCount
    ensures LoadFrom(rows, k, columnsCount, batch) == BatchRun(Batches(batch + rows, k), None)
    decreases |rows|
  {
    if rows == [] {
      assert batch + rows == batch;
    } else if |batch| >= k {
      var pending: seq<seq<Value>> := [];
      LoadFromBatches(rows[1..], k, columnsCount, pending + [rows[0]]);
      assert pending + [rows[0]] + rows[1..] == rows;
      var all := batch + rows;
      assert all[..k] == batch && all[k..] == rows;
      assert Batches(all, k) == [batch] + Batches(rows, k);
    } else {
      LoadFromBatches(rows[1..], k, columnsCount, batch + [rows[0]]);
      assert batch + [rows[0]] + rows[1..] == batch + rows;
    }
  }

  /**
   * A row of the wrong size at index i: the load fails with an
   * IllegalStateException, every batch sent is full, and what was sent is
   * a prefix of the pending and given rows that stops before row i.
   */
  lemma {:induction false} LoadFromStops(rows: seq<seq<Value>>, k: nat, columnsCount: nat, batch: seq<seq<Value>>, i: nat)
    requires k >= 1 && |batch| <= k
    requires i < |rows| && |rows[i]| != columnsCount
    ensures var run := LoadFrom(rows, k, columnsCount, batch);
      run.failure == Some(IllegalState) && AllFull(run.batches, k) &&
      Flatten(run.batches) <= batch + rows && |Flatten(run.batches)| <= |batch| + i
    decreases |rows|
  {
    if |batch| >= k {
      var pending: seq<seq<Value>> := [];
      if |rows[0]| == columnsCount {
        LoadFromStops(rows[1..], k, columnsCount, pending + [rows[0]], i - 1);
        assert pending + [rows[0]] + rows[1..] == rows;
        var rest := LoadFrom(rows[1..], k, columnsCount, pending + [rows[0]]);
        FlushedBatch(batch, rest.batches, k);
      } else {
        FlushedBatch(batch, [], k);
        assert [batch] + [] == [batch];
      }
    } else if |rows[0]| == columnsCount {
      LoadFromStops(rows[1..], k, columnsCount, batch + [rows[0]], i - 1);
      assert batch + [rows[0]] + rows[1..] == batch + rows;
      var rest := LoadFrom(rows[1..], k, columnsCount, batch + [rows[0]]);
      var none: seq<seq<seq<Value>>> := [];
      assert none + rest.batches == rest.batches;
    }
  }

  /** Every batch holds exactly k rows. */
  predicate AllFull<T>(batches: seq<seq<T>>, k: nat)
  {
    forall b :: 0 <= b < |batches| ==> |batches[b]| == k
  }

  /** A full batch sent in front of the rest. */
  lemma FlushedBatch<T>(batch: seq<T>, rest: seq<seq<T>>, k: nat)
    requires |batch| == k && AllFull(rest, k)
    ensures AllFull([batch] + rest, k)
    ensures Flatten([batch] + rest) == batch + Flatten(rest)
  {
    assert ([batch] + rest)[1..] == rest;
  }

  /**
   * load(rows): when every row has one value per column, the batches hold
   * 1 to batchRowsCount rows each, only the last may be shorter, there are
   * ceil(n / batchRowsCount) of them and they put back together give the
   * rows in order; a row of another size fails the load with an
   * IllegalStateException after sending only full batches of the rows
   * before it; no rows, no batch.
   */
  lemma LoadSpec(rows: seq<seq<Value>>, k: nat, columnsCount: nat)
    requires k >= 1
    ensures var run := LoadRun(rows, k, columnsCount);
      ((forall i :: 0 <= i < |rows| ==> |rows[i]| == columnsCount) ==>
        (run.failure == None && Flatten(run.batches) == rows && WellCut(run.batches, k) &&
         |run.batches| == CeilDiv(|rows|, k))) &&
      (forall i :: 0 <= i < |rows| && |rows[i]| != columnsCount ==>
        (run.failure == Some(IllegalState) && Flatten(run.batches) <= rows &&
         |Flatten(run.batches)| <= i && AllFull(run.batches, k))) &&
      (rows == [] ==> run == BatchRun([], None))
  {
    var empty: seq<seq<Value>> := [];
    assert empty + rows == rows;
    if forall i :: 0 <= i < |rows| ==> |rows[i]| == columnsCount {
      LoadFromBatches(rows, k, columnsCount, empty);
      BatchesSpec(rows, k);
    }
    forall i | 0 <= i < |rows| && |rows[i]| != columnsCount
      ensures var run := LoadRun(rows, k, columnsCount);
        run.failure == Some(IllegalState) && Flatten(run.batches) <= rows &&
        |Flatten(run.batches)| <= i && AllFull(run.batches, k)
    {
      LoadFromStops(rows, k, columnsCount, empty, i);
    }
  }
}
