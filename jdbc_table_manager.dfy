/**
 * JdbcTableManager: creates relational tables through a query executor.
 * The SQL it issues is recorded as a log of effects: statements executed,
 * a table dropped with errors ignored, and batches handed to the loader.
 */
module JdbcTableManagers {
  import opened Wrappers
  import opened Strings
  import opened Values
  import opened Batching
  import opened RelationalTableDefinitions
  import opened MutableTableRequirements
  import TablesState

  /** Rows per batch handed to the loader. */
  const BATCH_SIZE: nat := 10000

  datatype Effect =
    | Execute(sql: string)
    | DropTableIgnoreError(table: TablesState.TableName)
    | Load(tableNameInDatabase: string, batch: seq<seq<Value>>)

  datatype JdbcTableInstance = JdbcTableInstance(name: TablesState.TableName, definition: RelationalTableDefinition)

  // ---------------------------------------------------------------------
  // escapeNamePattern

  /**
   * escapeNamePattern: a name or escape that is null comes back as the
   * name; an escape of "_" or "%" is an IllegalArgumentException; otherwise
   * the escape is doubled, then every '_' and every '%' gets the escape in
   * front. An empty escape leaves the name as it is, since Java's replace of
   * the empty string by itself, and of a character by itself, changes
   * nothing.
   */
  function EscapeNamePattern(name: Option<string>, escape: Option<string>): (r: Result<Option<string>>)
    ensures (name.None? || escape.None?) ==> r == Ok(name)
    ensures (name.Some? && escape.Some? && (escape.value == "_" || escape.value == "%")) ==> r == Fail(IllegalArgument)
    ensures r.Fail? ==> r.error == IllegalArgument
  {
    if name.None? || escape.None? then Ok(name)
    else if escape.value == "_" || escape.value == "%" then Fail(IllegalArgument)
    else if escape.value == "" then Ok(name)
    else
      var e := escape.value;
      Ok(Some(ReplaceAll(ReplaceAll(ReplaceAll(name.value, e, e + e), "_", e + "_"), "%", e + "%")))
  }

  /** The escaping of one character: the escape, '_' and '%' get the escape in front. */
  function EscapeChar(x: char, e: char): string
  {
    if x == e || x == '_' || x == '%' then [e, x] else [x]
  }

  /** A name escaped character by character. */
  function EscapeChars(s: string, e: char): string
  {
    if s == [] then [] else EscapeChar(s[0], e) + EscapeChars(s[1..], e)
  }

  /** How a LIKE pattern with escape e is read: the escape makes the character after it literal. */
  function Unescape(p: string, e: char): string
  {
    if p == [] then []
    else if p[0] == e && |p| >= 2 then [p[1]] + Unescape(p[2..], e)
    else [p[0]] + Unescape(p[1..], e)
  }

  /** In a pattern read with escape e, no '_' or '%' stands unescaped: none is a wildcard. */
  predicate NoWildcard(p: string, e: char)
  {
    if p == [] then true
    else if p[0] == e && |p| >= 2 then NoWildcard(p[2..], e)
    else p[0] != '_' && p[0] != '%' && NoWildcard(p[1..], e)
  }

  // ---------------------------------------------------------------------
  // partitionBy

  /**
   * partitionBy(rows, size): each next() takes rows while there are some and
   * the batch is below the size. With a size of 0 or less next() returns
   * empty batches forever; the only caller passes BATCH_SIZE.
   */
  method PartitionBy<T>(rows: seq<T>, partitionSize: nat) returns (batches: seq<seq<T>>)
    requires partitionSize >= 1
    ensures batches == Batches(rows, partitionSize)
  {
    var position := 0;
    batches := [];
    while position < |rows|
      invariant 0 <= position <= |rows|
      invariant batches + Batches(rows[position..], partitionSize) == Batches(rows, partitionSize)
      decreases |rows| - position
    {
      var start := position;
      var batch: seq<T> := [];
      while position < |rows| && |batch| < partitionSize
        invariant start <= position <= |rows|
        invariant batch == rows[start..position] && |batch| <= partitionSize
        decreases |rows| - position
      {
        batch := batch + [rows[position]];
        position := position + 1;
      }
      NextBatch(rows, start, partitionSize);
      assert batch == rows[start..position];
      batches := batches + [batch];
    }
    assert rows[position..] == [];
  }

  /** One next() call: the batch from `start` is the first of the batches of the rest. */
  lemma NextBatch<T>(rows: seq<T>, start: nat, k: nat)
    requires k >= 1 && start < |rows|
    ensures var n := if |rows| - start <= k then |rows| else start + k;
      Batches(rows[start..], k) == [rows[start..n]] + Batches(rows[n..], k)
  {
    var rest := rows[start..];
    if |rest| <= k {
      assert rest == rows[start..|rows|];
      assert rows[|rows|..] == [];
    } else {
      assert rest[..k] == rows[start..start + k];
      assert rest[k..] == rows[start + k..];
    }
  }

  // ---------------------------------------------------------------------
  // The effects of creating a table

  /** createTable: the schema (unless skipped by configuration), then the definition's DDL under the name in the database. */
  function CreateTableEffects(definition: RelationalTableDefinition, tableName: TablesState.TableName, skipCreateSchema: bool): seq<Effect>
  {
    (if !skipCreateSchema && tableName.schema.Some? then [Execute("CREATE SCHEMA IF NOT EXISTS " + tableName.schema.value)] else []) +
    [Execute(GetCreateTableDDL(definition, tableName.nameInDatabase))]
  }

  /** One load per batch, in order. */
  function LoadEffects(tableNameInDatabase: string, batches: seq<seq<seq<Value>>>): (r: seq<Effect>)
    ensures |r| == |batches|
    ensures forall i :: 0 <= i < |batches| ==> r[i] == Load(tableNameInDatabase, batches[i])
  {
    if batches == [] then [] else [Load(tableNameInDatabase, batches[0])] + LoadEffects(tableNameInDatabase, batches[1..])
  }

  /** insertData: no rows opens no loader; otherwise the rows go to the loader in batches of BATCH_SIZE. */
  function InsertDataEffects(tableName: TablesState.TableName, rows: seq<seq<Value>>): seq<Effect>
  {
    if rows == [] then [] else LoadEffects(tableName.nameInDatabase, Batches(rows, BATCH_SIZE))
  }

  /** createMutable: PREPARED stops before the DDL, CREATED after it, LOADED also inserts the rows. */
  function CreateMutableEffects(definition: RelationalTableDefinition, state: State, tableName: TablesState.TableName,
                                skipCreateSchema: bool, rows: seq<seq<Value>>): seq<Effect>
  {
    match state
    case PREPARED => []
    case CREATED => CreateTableEffects(definition, tableName, skipCreateSchema)
    case LOADED => CreateTableEffects(definition, tableName, skipCreateSchema) + InsertDataEffects(tableName, rows)
  }

  /**
   * createImmutable: without a schema the table is dropped and made again (a
   * table of that name may exist in another schema); with a schema it is
   * made only when it does not exist yet.
   */
  function CreateImmutableEffects(definition: RelationalTableDefinition, tableName: TablesState.TableName, tableExists: bool,
                                  skipCreateSchema: bool, rows: seq<seq<Value>>): seq<Effect>
  {
    if tableName.schema.None? then
      [DropTableIgnoreError(tableName)] + CreateTableEffects(definition, tableName, skipCreateSchema) + InsertDataEffects(tableName, rows)
    else if !tableExists then
      CreateTableEffects(definition, tableName, skipCreateSchema) + InsertDataEffects(tableName, rows)
    else []
  }

  /**
   * The manager of one database. `executed` is what it has sent to the
   * database so far; whether the schema is created comes from the
   * configuration key databases.<name>.skip_create_schema.
   */
  class JdbcTableManager {
    const databaseName: string
    const skipCreateSchema: bool
    var executed: seq<Effect>

    constructor(databaseName: string, skipCreateSchema: bool)
      ensures this.databaseName == databaseName && this.skipCreateSchema == skipCreateSchema && executed == []
    {
      this.databaseName := databaseName;
      this.skipCreateSchema := skipCreateSchema;
      executed := [];
    }

    method CreateTable(definition: RelationalTableDefinition, tableName: TablesState.TableName)
      modifies this
      ensures executed == old(executed) + CreateTableEffects(definition, tableName, skipCreateSchema)
    {
      if !skipCreateSchema && tableName.schema.Some? {
        executed := executed + [Execute("CREATE SCHEMA IF NOT EXISTS " + tableName.schema.value)];
      }
      executed := executed + [Execute(GetCreateTableDDL(definition, tableName.nameInDatabase))];
    }

    method InsertData(tableName: TablesState.TableName, rows: seq<seq<Value>>)
      modifies this
      ensures executed == old(executed) + InsertDataEffects(tableName, rows)
    {
      if rows == [] {
        return;
      }
      var batches := PartitionBy(rows, BATCH_SIZE);
      for i := 0 to |batches|
        invariant executed == old(executed) + LoadEffects(tableName.nameInDatabase, batches[..i])
      {
        LoadEffectsAppend(tableName.nameInDatabase, batches[..i], batches[i]);
        assert batches[..i + 1] == batches[..i] + [batches[i]];
        executed := executed + [Load(tableName.nameInDatabase, batches[i])];
      }
      assert batches[..|batches|] == batches;
    }

    /** createMutable: the rows are those of the definition's data source. */
    method CreateMutable(definition: RelationalTableDefinition, state: State, tableName: TablesState.TableName, rows: seq<seq<Value>>)
      returns (instance: JdbcTableInstance)
      modifies this
      ensures instance == JdbcTableInstance(tableName, definition)
      ensures executed == old(executed) + CreateMutableEffects(definition, state, tableName, skipCreateSchema, rows)
    {
      instance := JdbcTableInstance(tableName, definition);
      if state == PREPARED {
        return;
      }
      CreateTable(definition, tableName);
      if state == CREATED {
        return;
      }
      InsertData(tableName, rows);
    }

    /** createImmutable: whether the table exists is what the database metadata reports. */
    method CreateImmutable(definition: RelationalTableDefinition, tableName: TablesState.TableName, tableExists: bool, rows: seq<seq<Value>>)
      returns (instance: JdbcTableInstance)
      modifies this
      ensures instance == JdbcTableInstance(tableName, definition)
      ensures executed == old(executed) + CreateImmutableEffects(definition, tableName, tableExists, skipCreateSchema, rows)
    {
      ghost var before := executed;
      if tableName.schema.None? {
        executed := executed + [DropTableIgnoreError(tableName)];
        CreateTable(definition, tableName);
        InsertData(tableName, rows);
        AppendEffects(before, [DropTableIgnoreError(tableName)], CreateTableEffects(definition, tableName, skipCreateSchema),
          InsertDataEffects(tableName, rows));
      } else if !tableExists {
        CreateTable(definition, tableName);
        InsertData(tableName, rows);
        AppendEffects(before, [], CreateTableEffects(definition, tableName, skipCreateSchema), InsertDataEffects(tableName, rows));
      }
      instance := JdbcTableInstance(tableName, definition);
    }
  }

  // ---------------------------------------------------------------------
  // Lemmas

  lemma AppendEffects(a: seq<Effect>, b: seq<Effect>, c: seq<Effect>, d: seq<Effect>)
    ensures a + b + c + d == a + (b + c + d)
    ensures b == [] ==> a + c + d == a + (c + d)
  {
  }

  lemma {:induction false} LoadEffectsAppend(table: string, batches: seq<seq<seq<Value>>>, last: seq<seq<Value>>)
    ensures LoadEffects(table, batches + [last]) == LoadEffects(table, batches) + [Load(table, last)]
  {
    if batches == [] {
      assert batches + [last] == [last];
    } else {
      assert (batches + [last])[1..] == batches[1..] + [last];
      LoadEffectsAppend(table, batches[1..], last);
    }
  }

  /**
   * With a one-character escape other than '_' and '%', the escaped name is
   * the name escaped character by character.
   */
  lemma EscapeNamePatternChars(name: string, e: char)
    requires e != '_' && e != '%'
    ensures EscapeNamePattern(Some(name), Some([e])) == Ok(Some(EscapeChars(name, e)))
  {
    ReplaceAllChar(name, e, [e, e]);
    var doubled := ReplaceChar(name, e, [e, e]);
    ReplaceAllChar(doubled, '_', [e, '_']);
    var underscored := ReplaceChar(doubled, '_', [e, '_']);
    ReplaceAllChar(underscored, '%', [e, '%']);
    assert [e] + [e] == [e, e] && [e] + "_" == [e, '_'] && [e] + "%" == [e, '%'];
    EscapeThreeReplaces(name, e);
  }

  lemma {:induction false} EscapeThreeReplaces(s: string, e: char)
    requires e != '_' && e != '%'
    ensures ReplaceChar(ReplaceChar(ReplaceChar(s, e, [e, e]), '_', [e, '_']), '%', [e, '%']) == EscapeChars(s, e)
  {
    if s != [] {
      EscapeThreeReplaces(s[1..], e);
      var head := if s[0] == e then [e, e] else [s[0]];
      var rest := ReplaceChar(s[1..], e, [e, e]);
      ReplaceCharAppend(head, rest, '_', [e, '_']);
      var head2 := ReplaceChar(head, '_', [e, '_']);
      var rest2 := ReplaceChar(rest, '_', [e, '_']);
      ReplaceCharAppend(head2, rest2, '%', [e, '%']);
      EscapeOneChar(s[0], e);
    }
  }

  /** The three replaces on the escaping of one character. */
  lemma EscapeOneChar(x: char, e: char)
    requires e != '_' && e != '%'
    ensures var head := if x == e then [e, e] else [x];
      ReplaceChar(ReplaceChar(head, '_', [e, '_']), '%', [e, '%']) == EscapeChar(x, e)
  {
    if x == e {
      ReplaceCharPair(e, e, '_', [e, '_']);
      ReplaceCharPair(e, e, '%', [e, '%']);
    } else if x == '_' {
      assert ReplaceChar([x], '_', [e, '_']) == [e, '_'];
      ReplaceCharPair(e, '_', '%', [e, '%']);
    } else if x == '%' {
      assert ReplaceChar([x], '_', [e, '_']) == [x];
      assert ReplaceChar([x], '%', [e, '%']) == [e, '%'];
    } else {
      assert ReplaceChar([x], '_', [e, '_']) == [x];
      assert ReplaceChar([x], '%', [e, '%']) == [x];
    }
  }

  lemma ReplaceCharPair(a: char, b: char, c: char, r: string)
    requires a != c && b != c
    ensures ReplaceChar([a, b], c, r) == [a, b]
  {
    assert [a, b][1..] == [b];
    assert [b][1..] == [];
    assert ReplaceChar([b], c, r) == [b] + ReplaceChar([], c, r);
    assert ReplaceChar([a, b], c, r) == [a] + ReplaceChar([b], c, r);
  }

  lemma EscapeCharsCons(s: string, e: char)
    requires s != []
    ensures EscapeChars(s, e) == EscapeChar(s[0], e) + EscapeChars(s[1..], e)
  {
  }

  /**
   * Reading the escaped name as a LIKE pattern gives back the name, and the
   * pattern holds no wildcard: the metadata query matches that name only.
   */
  lemma {:induction false} EscapeRoundTrip(name: string, e: char)
    requires e != '_' && e != '%'
    ensures Unescape(EscapeChars(name, e), e) == name
    ensures NoWildcard(EscapeChars(name, e), e)
  {
    if name != [] {
      EscapeRoundTrip(name[1..], e);
      var rest := EscapeChars(name[1..], e);
      var p := EscapeChar(name[0], e) + rest;
      if name[0] == e || name[0] == '_' || name[0] == '%' {
        assert p[0] == e && p[1] == name[0] && p[2..] == rest;
      } else {
        assert p[0] == name[0] && p[1..] == rest;
      }
    }
  }

  /** An escape of "_" or "%" is refused whatever the name. */
  lemma WildcardEscapeRefused(name: string, escape: string)
    requires escape == "_" || escape == "%"
    ensures EscapeNamePattern(Some(name), Some(escape)) == Fail(IllegalArgument)
  {
  }

  /** createMutable by state: PREPARED executes nothing, CREATED only the DDL, LOADED the DDL and then the inserts. */
  lemma CreateMutableByState(definition: RelationalTableDefinition, tableName: TablesState.TableName,
                             skipCreateSchema: bool, rows: seq<seq<Value>>)
    ensures CreateMutableEffects(definition, PREPARED, tableName, skipCreateSchema, rows) == []
    ensures var created := CreateMutableEffects(definition, CREATED, tableName, skipCreateSchema, rows);
      (forall i :: 0 <= i < |created| ==> created[i].Execute?) &&
      created[|created| - 1] == Execute(GetCreateTableDDL(definition, tableName.nameInDatabase))
    ensures CreateMutableEffects(definition, LOADED, tableName, skipCreateSchema, rows) ==
      CreateMutableEffects(definition, CREATED, tableName, skipCreateSchema, rows) + InsertDataEffects(tableName, rows)
  {
  }

  /**
   * The inserts load every row exactly once, in order, in batches of 1 to
   * BATCH_SIZE rows, into the table's name in the database; no rows, no load.
   */
  lemma InsertDataLoadsRows(tableName: TablesState.TableName, rows: seq<seq<Value>>)
    ensures var effects := InsertDataEffects(tableName, rows);
      (forall i :: 0 <= i < |effects| ==> effects[i].Load? && effects[i].tableNameInDatabase == tableName.nameInDatabase) &&
      Flatten(LoadedBatches(effects)) == rows &&
      WellCut(LoadedBatches(effects), BATCH_SIZE) &&
      (rows == [] <==> effects == [])
  {
    var effects := InsertDataEffects(tableName, rows);
    if rows != [] {
      var batches := Batches(rows, BATCH_SIZE);
      BatchesSpec(rows, BATCH_SIZE);
      LoadedBatchesOf(tableName.nameInDatabase, batches);
    }
  }

  /** The batches handed to the loader, in order. */
  function LoadedBatches(effects: seq<Effect>): seq<seq<seq<Value>>>
  {
    if effects == [] then []
    else (if effects[0].Load? then [effects[0].batch] else []) + LoadedBatches(effects[1..])
  }

  lemma {:induction false} LoadedBatchesOf(table: string, batches: seq<seq<seq<Value>>>)
    ensures LoadedBatches(LoadEffects(table, batches)) == batches
  {
    if batches != [] {
      LoadedBatchesOf(table, batches[1..]);
      assert LoadEffects(table, batches)[1..] == LoadEffects(table, batches[1..]);
    }
  }

  /** createImmutable: without a schema drop then create; with a schema create only a missing table; an existing one is left alone. */
  lemma CreateImmutableBySchema(definition: RelationalTableDefinition, tableName: TablesState.TableName, tableExists: bool,
                                skipCreateSchema: bool, rows: seq<seq<Value>>)
    ensures tableName.schema.None? ==>
      CreateImmutableEffects(definition, tableName, tableExists, skipCreateSchema, rows) ==
      [DropTableIgnoreError(tableName)] + CreateMutableEffects(definition, LOADED, tableName, skipCreateSchema, rows)
    ensures (tableName.schema.Some? && !tableExists) ==>
      CreateImmutableEffects(definition, tableName, tableExists, skipCreateSchema, rows) ==
      CreateMutableEffects(definition, LOADED, tableName, skipCreateSchema, rows)
    ensures (tableName.schema.Some? && tableExists) ==>
      CreateImmutableEffects(definition, tableName, tableExists, skipCreateSchema, rows) == []
  {
  }
}
