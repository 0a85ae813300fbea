/**
 * TablesState: the tables a fulfiller created, looked up by handle. A handle
 * matches a table by name, ignoring case; its schema, its "no schema" flag
 * and its database narrow the match. A lookup must find exactly one table.
 */
module TablesState {
  import opened Wrappers
  import opened Strings
  import opened TableHandles

  /** A created table: its name, optional schema, database and the name it has in the database. */
  datatype TableInstance = TableInstance(name: string, schema: Option<string>, database: string, nameInDatabase: string)
  {
    function GetTableName(): TableName
    {
      TableName(database, schema, name, nameInDatabase)
    }
  }

  datatype TableName = TableName(database: string, schema: Option<string>, name: string, nameInDatabase: string)

  /** TablesState.matches, branch by branch. */
  predicate Matches(table: TableInstance, handle: TableHandle)
  {
    if !EqualsIgnoreCase(table.name, handle.name) then false
    else if handle.schema.Some? && table.schema.None? then false
    else if handle.schema.Some? && !EqualsIgnoreCase(table.schema.value, handle.schema.value) then false
    else if table.schema.None? && handle.schema.Some? then false
    else if handle.requireNoSchema && table.schema.Some? then false
    else handle.database.None? || EqualsIgnoreCase(handle.database.value, table.database)
  }

  /** The tables that match, in order. */
  function Matching(tables: seq<TableInstance>, handle: TableHandle): (r: seq<TableInstance>)
    ensures |r| <= |tables|
    ensures forall x :: x in r ==> x in tables && Matches(x, handle)
  {
    if tables == [] then []
    else if Matches(tables[0], handle) then [tables[0]] + Matching(tables[1..], handle)
    else Matching(tables[1..], handle)
  }

  /** get(handle): the only matching table; none or several is an IllegalArgumentException. */
  function Get(tables: seq<TableInstance>, handle: TableHandle): (r: Result<TableInstance>)
    ensures r.Ok? ==> r.value in tables && Matches(r.value, handle)
    ensures r.Fail? ==> r.error == IllegalArgument
  {
    var found := Matching(tables, handle);
    if |found| == 1 then Ok(found[0]) else Fail(IllegalArgument)
  }

  /** get(name): a lookup by bare name. */
  function GetByName(tables: seq<TableInstance>, name: string): Result<TableInstance>
  {
    Get(tables, Named(name))
  }

  /** getTableNames(database): the tables in that database (ignoring case), in order. */
  function GetTableNames(tables: seq<TableInstance>, database: string): (r: seq<TableName>)
    ensures |r| <= |tables|
  {
    if tables == [] then []
    else if EqualsIgnoreCase(tables[0].database, database) then [tables[0].GetTableName()] + GetTableNames(tables[1..], database)
    else GetTableNames(tables[1..], database)
  }

  /** Collectors.toMap(getName, getNameInDatabase): a repeated name is an IllegalStateException. */
  function ToNameMap(names: seq<TableName>, acc: map<string, string>): Result<map<string, string>>
  {
    if names == [] then Ok(acc)
    else if names[0].name in acc then Fail(IllegalState)
    else ToNameMap(names[1..], acc[names[0].name := names[0].nameInDatabase])
  }

  function GetNameInDatabaseMap(tables: seq<TableInstance>, database: string): Result<map<string, string>>
  {
    ToNameMap(GetTableNames(tables, database), map[])
  }

  /** getDatabaseNames: the set of the tables' databases. */
  function GetDatabaseNames(tables: seq<TableInstance>): (r: set<string>)
    ensures forall d :: d in r <==> exists k :: 0 <= k < |tables| && tables[k].database == d
  {
    set k | 0 <= k < |tables| :: tables[k].database
  }

  // ---------------------------------------------------------------------
  // Lemmas

  /**
   * The match, stated flat: same name ignoring case; a handle's schema needs
   * a table schema equal to it ignoring case; a "no schema" handle needs a
   * schemaless table; a handle's database must equal the table's ignoring case.
   */
  lemma MatchesSpec(table: TableInstance, handle: TableHandle)
    ensures Matches(table, handle) <==>
      EqualsIgnoreCase(table.name, handle.name) &&
      (handle.schema.Some? ==> table.schema.Some? && EqualsIgnoreCase(table.schema.value, handle.schema.value)) &&
      (handle.requireNoSchema ==> table.schema.None?) &&
      (handle.database.Some? ==> EqualsIgnoreCase(handle.database.value, table.database))
  {
  }

  /** A bare name matches every table with that name (ignoring case), whatever its schema and database. */
  lemma BareNameMatches(table: TableInstance, name: string)
    ensures Matches(table, Named(name)) <==> EqualsIgnoreCase(table.name, name)
  {
  }

  /** A handle from withNoSchema never matches a table with a schema. */
  lemma NoSchemaHandle(table: TableInstance, handle: TableHandle)
    requires table.schema.Some?
    ensures !Matches(table, handle.WithNoSchema())
  {
  }

  lemma {:induction false} MatchingMembers(tables: seq<TableInstance>, handle: TableHandle, k: nat)
    requires k < |tables| && Matches(tables[k], handle)
    ensures tables[k] in Matching(tables, handle)
  {
    if k > 0 {
      MatchingMembers(tables[1..], handle, k - 1);
    }
  }

  lemma {:induction false} MatchingEmpty(tables: seq<TableInstance>, handle: TableHandle)
    requires forall k :: 0 <= k < |tables| ==> !Matches(tables[k], handle)
    ensures Matching(tables, handle) == []
  {
    if tables != [] {
      assert forall k :: 0 <= k < |tables[1..]| ==> tables[1..][k] == tables[k + 1];
      MatchingEmpty(tables[1..], handle);
    }
  }

  lemma {:induction false} MatchingOnly(tables: seq<TableInstance>, handle: TableHandle, i: nat)
    requires i < |tables| && Matches(tables[i], handle)
    requires forall k :: 0 <= k < |tables| && k != i ==> !Matches(tables[k], handle)
    ensures Matching(tables, handle) == [tables[i]]
  {
    assert forall k :: 0 <= k < |tables[1..]| ==> tables[1..][k] == tables[k + 1];
    if i == 0 {
      MatchingEmpty(tables[1..], handle);
    } else {
      MatchingOnly(tables[1..], handle, i - 1);
    }
  }

  lemma {:induction false} MatchingTwo(tables: seq<TableInstance>, handle: TableHandle, i: nat, j: nat)
    requires i < j < |tables| && Matches(tables[i], handle) && Matches(tables[j], handle)
    ensures |Matching(tables, handle)| >= 2
  {
    if i > 0 {
      MatchingTwo(tables[1..], handle, i - 1, j - 1);
    } else {
      MatchingMembers(tables[1..], handle, j - 1);
    }
  }

  /** Exactly one matching table is returned. */
  lemma GetUnique(tables: seq<TableInstance>, handle: TableHandle, i: nat)
    requires i < |tables| && Matches(tables[i], handle)
    requires forall k :: 0 <= k < |tables| && k != i ==> !Matches(tables[k], handle)
    ensures Get(tables, handle) == Ok(tables[i])
  {
    MatchingOnly(tables, handle, i);
  }

  /** No match is an IllegalArgumentException. */
  lemma GetNone(tables: seq<TableInstance>, handle: TableHandle)
    requires forall k :: 0 <= k < |tables| ==> !Matches(tables[k], handle)
    ensures Get(tables, handle) == Fail(IllegalArgument)
  {
    MatchingEmpty(tables, handle);
  }

  /** Two matching tables (at different positions) are an IllegalArgumentException. */
  lemma GetAmbiguous(tables: seq<TableInstance>, handle: TableHandle, i: nat, j: nat)
    requires i < j < |tables| && Matches(tables[i], handle) && Matches(tables[j], handle)
    ensures Get(tables, handle) == Fail(IllegalArgument)
  {
    MatchingTwo(tables, handle, i, j);
  }

  /** getTableNames keeps exactly the tables of the database, in order. */
  lemma {:induction false} GetTableNamesAppend(a: seq<TableInstance>, b: seq<TableInstance>, database: string)
    ensures GetTableNames(a + b, database) == GetTableNames(a, database) + GetTableNames(b, database)
  {
    if a != [] {
      assert (a + b)[1..] == a[1..] + b;
      GetTableNamesAppend(a[1..], b, database);
    } else {
      assert a + b == b;
    }
  }

  lemma {:induction false} GetTableNamesMembers(tables: seq<TableInstance>, database: string, n: TableName)
    ensures n in GetTableNames(tables, database) <==>
      exists k :: 0 <= k < |tables| && EqualsIgnoreCase(tables[k].database, database) && tables[k].GetTableName() == n
  {
    if tables != [] {
      GetTableNamesMembers(tables[1..], database, n);
      if exists k :: 0 <= k < |tables| && EqualsIgnoreCase(tables[k].database, database) && tables[k].GetTableName() == n {
        var k :| 0 <= k < |tables| && EqualsIgnoreCase(tables[k].database, database) && tables[k].GetTableName() == n;
        if k > 0 { assert tables[1..][k - 1] == tables[k]; }
      }
      if exists k :: 0 <= k < |tables[1..]| && EqualsIgnoreCase(tables[1..][k].database, database) && tables[1..][k].GetTableName() == n {
        var k :| 0 <= k < |tables[1..]| && EqualsIgnoreCase(tables[1..][k].database, database) && tables[1..][k].GetTableName() == n;
        assert tables[k + 1] == tables[1..][k];
      }
    }
  }

  /** When the name map builds, it maps every listed name to its name in the database, and nothing else. */
  lemma {:induction false} ToNameMapContents(names: seq<TableName>, acc: map<string, string>)
    requires ToNameMap(names, acc).Ok?
    ensures forall k :: 0 <= k < |names| ==>
      names[k].name in ToNameMap(names, acc).value && ToNameMap(names, acc).value[names[k].name] == names[k].nameInDatabase
    ensures forall x :: x in ToNameMap(names, acc).value ==> x in acc || exists k :: 0 <= k < |names| && names[k].name == x
  {
    if names != [] {
      var rest := names[1..];
      var m := ToNameMap(names, acc).value;
      ToNameMapContents(rest, acc[names[0].name := names[0].nameInDatabase]);
      ToNameMapKeeps(rest, acc[names[0].name := names[0].nameInDatabase]);
      forall x | x in m && x !in acc ensures exists k :: 0 <= k < |names| && names[k].name == x {
        if x != names[0].name {
          var k :| 0 <= k < |rest| && rest[k].name == x;
          assert names[k + 1].name == x;
        }
      }
    }
  }

  lemma {:induction false} ToNameMapKeeps(names: seq<TableName>, acc: map<string, string>)
    requires ToNameMap(names, acc).Ok?
    ensures forall x :: x in acc ==> x in ToNameMap(names, acc).value && ToNameMap(names, acc).value[x] == acc[x]
  {
    if names != [] {
      ToNameMapKeeps(names[1..], acc[names[0].name := names[0].nameInDatabase]);
    }
  }

  /** Two tables with the same name make the name map fail. */
  lemma {:induction false} ToNameMapDuplicate(names: seq<TableName>, acc: map<string, string>, i: nat, j: nat)
    requires i < j < |names| && names[i].name == names[j].name
    ensures ToNameMap(names, acc) == Fail(IllegalState)
  {
    if names[0].name !in acc {
      var acc' := acc[names[0].name := names[0].nameInDatabase];
      if i > 0 {
        ToNameMapDuplicate(names[1..], acc', i - 1, j - 1);
      } else {
        ToNameMapPresent(names[1..], acc', j - 1);
      }
    }
  }

  lemma {:induction false} ToNameMapPresent(names: seq<TableName>, acc: map<string, string>, j: nat)
    requires j < |names| && names[j].name in acc
    ensures ToNameMap(names, acc) == Fail(IllegalState)
  {
    if j > 0 && names[0].name !in acc {
      ToNameMapPresent(names[1..], acc[names[0].name := names[0].nameInDatabase], j - 1);
    }
  }
}
