/**
 * The older TablesState (com.teradata): tables grouped per database, each
 * database holding a name -> instance map. A lookup either names the database
 * or searches all databases for a unique hit.
 */
module LegacyTablesState {
  import opened Wrappers
  import TablesState

  type TableInstance = TablesState.TableInstance

  /** database -> (table name -> instance), the DatabaseTableInstanceMap per database. */
  type Databases = map<string, map<string, TableInstance>>

  /** The databases that hold a table of that name. */
  function HoldersOf(databases: Databases, name: string): (r: set<string>)
    ensures forall d :: d in r <==> d in databases && name in databases[d]
  {
    set d | d in databases && name in databases[d]
  }

  /**
   * get(name, database). With a database: an unknown database is an
   * IllegalStateException, an unknown name an IllegalArgumentException.
   * Without: the table must be held by exactly one database.
   */
  ghost function Get(databases: Databases, name: string, database: Option<string>): (r: Result<TableInstance>)
    ensures r.Ok? ==> exists d :: d in databases && name in databases[d] && databases[d][name] == r.value
  {
    match database
    case Some(db) =>
      if db !in databases then Fail(IllegalState)
      else if name !in databases[db] then Fail(IllegalArgument)
      else Ok(databases[db][name])
    case None =>
      var holders := HoldersOf(databases, name);
      if |holders| == 1 then
        var d :| d in holders;
        Ok(databases[d][name])
      else Fail(IllegalArgument)
  }

  /** getNameInDatabaseMap: name -> name in the database, empty for an unknown database. */
  function GetNameInDatabaseMap(databases: Databases, database: string): (r: map<string, string>)
    ensures database !in databases ==> r == map[]
    ensures database in databases ==> r.Keys == databases[database].Keys
    ensures forall n :: n in r ==> database in databases && r[n] == databases[database][n].nameInDatabase
  {
    if database !in databases then map[]
    else map n | n in databases[database] :: databases[database][n].nameInDatabase
  }

  // ---------------------------------------------------------------------
  // Lemmas

  /** With a database given, the lookup is that database's entry for the name. */
  lemma GetInDatabase(databases: Databases, name: string, db: string)
    ensures db !in databases ==> Get(databases, name, Some(db)) == Fail(IllegalState)
    ensures db in databases && name !in databases[db] ==> Get(databases, name, Some(db)) == Fail(IllegalArgument)
    ensures db in databases && name in databases[db] ==> Get(databases, name, Some(db)) == Ok(databases[db][name])
  {
  }

  /** A name held by exactly one database is found there without naming the database. */
  lemma GetUniqueHolder(databases: Databases, name: string, d: string)
    requires d in databases && name in databases[d]
    requires forall e :: e in databases && name in databases[e] ==> e == d
    ensures Get(databases, name, None) == Ok(databases[d][name])
  {
    assert HoldersOf(databases, name) == {d};
  }

  /** A name held by no database is an IllegalArgumentException. */
  lemma GetNoHolder(databases: Databases, name: string)
    requires forall e :: e in databases ==> name !in databases[e]
    ensures Get(databases, name, None) == Fail(IllegalArgument)
  {
    assert HoldersOf(databases, name) == {};
  }

  /** A name held by two databases needs the database to be given. */
  lemma GetTwoHolders(databases: Databases, name: string, d1: string, d2: string)
    requires d1 != d2 && d1 in databases && d2 in databases && name in databases[d1] && name in databases[d2]
    ensures Get(databases, name, None) == Fail(IllegalArgument)
  {
    var holders := HoldersOf(databases, name);
    var rest := holders - {d1};
    assert d2 in rest;
    assert |rest| >= 1;
    assert holders == rest + {d1};
  }
}
