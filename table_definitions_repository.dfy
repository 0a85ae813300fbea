/**
 * TableDefinitionsRepository: table definitions registered under a key made
 * of the handle's name and schema (never its database). A lookup tries the
 * exact (name, schema) key and falls back to the (name, no schema) key.
 */
module TableDefinitions {
  import opened Wrappers
  import opened TableHandles

  /**
   * A table definition, as far as the harness dispatches on it: its handle
   * and the name of its Java class (Hive, JDBC, Cassandra, ...).
   */
  datatype TableDefinition = TableDefinition(handle: TableHandle, definitionClass: string)

  datatype RepositoryKey = RepositoryKey(name: string, schema: Option<string>)

  /** asRepositoryKey(handle): the database plays no part. */
  function KeyOf(handle: TableHandle): (k: RepositoryKey)
    ensures k.name == handle.name && k.schema == handle.schema
  {
    RepositoryKey(handle.name, handle.schema)
  }

  /** get: the exact key first, then the name alone; neither is an IllegalStateException. */
  function Lookup(definitions: map<RepositoryKey, TableDefinition>, handle: TableHandle): (r: Result<TableDefinition>)
    ensures r.Fail? <==> KeyOf(handle) !in definitions && RepositoryKey(handle.name, None) !in definitions
    ensures r.Fail? ==> r.error == IllegalState
  {
    var handleKey := KeyOf(handle);
    var nameKey := RepositoryKey(handle.name, None);
    if handleKey in definitions then Ok(definitions[handleKey])
    else if nameKey in definitions then Ok(definitions[nameKey])
    else Fail(IllegalState)
  }

  /** The keys of definitions registered in order, or None when two of them share a key. */
  function RegisterAll(definitions: seq<TableDefinition>, acc: map<RepositoryKey, TableDefinition>): Option<map<RepositoryKey, TableDefinition>>
  {
    if definitions == [] then Some(acc)
    else if KeyOf(definitions[0].handle) in acc then None
    else RegisterAll(definitions[1..], acc[KeyOf(definitions[0].handle) := definitions[0]])
  }

  class TableDefinitionsRepository {
    var tableDefinitions: map<RepositoryKey, TableDefinition>

    /** Every definition is stored under its own handle's key. */
    predicate Valid()
      reads this
    {
      forall k :: k in tableDefinitions ==> KeyOf(tableDefinitions[k].handle) == k
    }

    constructor()
      ensures Valid() && tableDefinitions == map[]
    {
      tableDefinitions := map[];
    }

    /** register: a second definition under the same (name, schema) is an IllegalStateException. */
    method Register(definition: TableDefinition) returns (r: Result<TableDefinition>)
      requires Valid()
      modifies this
      ensures Valid()
      ensures KeyOf(definition.handle) in old(tableDefinitions) ==>
        r == Fail(IllegalState) && tableDefinitions == old(tableDefinitions)
      ensures KeyOf(definition.handle) !in old(tableDefinitions) ==>
        r == Ok(definition) && tableDefinitions == old(tableDefinitions)[KeyOf(definition.handle) := definition]
    {
      var repositoryKey := KeyOf(definition.handle);
      if repositoryKey in tableDefinitions {
        return Fail(IllegalState);
      }
      tableDefinitions := tableDefinitions[repositoryKey := definition];
      return Ok(definition);
    }

    /** The constructor over a collection: registers each definition in order. */
    method RegisterEach(definitions: seq<TableDefinition>) returns (r: Result<()>)
      requires Valid()
      modifies this
      ensures Valid()
      ensures r.Ok? <==> RegisterAll(definitions, old(tableDefinitions)).Some?
      ensures r.Ok? ==> tableDefinitions == RegisterAll(definitions, old(tableDefinitions)).value
      ensures r.Fail? ==> r.error == IllegalState
    {
      var i := 0;
      while i < |definitions|
        invariant 0 <= i <= |definitions|
        invariant Valid()
        invariant RegisterAll(definitions, old(tableDefinitions)) == RegisterAll(definitions[i..], tableDefinitions)
      {
        assert definitions[i..][1..] == definitions[i + 1..];
        var registered := Register(definitions[i]);
        if registered.Fail? {
          return Fail(IllegalState);
        }
        i := i + 1;
      }
      return Ok(());
    }

    function Get(handle: TableHandle): (r: Result<TableDefinition>)
      reads this
      ensures r == Lookup(tableDefinitions, handle)
    {
      Lookup(tableDefinitions, handle)
    }
  }

  // ---------------------------------------------------------------------
  // Lemmas

  /** The exact (name, schema) entry wins. */
  lemma LookupExact(definitions: map<RepositoryKey, TableDefinition>, handle: TableHandle)
    requires KeyOf(handle) in definitions
    ensures Lookup(definitions, handle) == Ok(definitions[KeyOf(handle)])
  {
  }

  /** Without an exact entry, the (name, no schema) entry is used. */
  lemma LookupFallback(definitions: map<RepositoryKey, TableDefinition>, handle: TableHandle)
    requires KeyOf(handle) !in definitions && RepositoryKey(handle.name, None) in definitions
    ensures Lookup(definitions, handle) == Ok(definitions[RepositoryKey(handle.name, None)])
  {
  }

  /** The handle's database never changes the lookup. */
  lemma LookupIgnoresDatabase(definitions: map<RepositoryKey, TableDefinition>, handle: TableHandle, db: string)
    ensures Lookup(definitions, handle.InDatabase(db)) == Lookup(definitions, handle)
  {
  }

  /** A registered definition is found again by its own handle, in any database. */
  lemma RegisterThenLookup(definitions: map<RepositoryKey, TableDefinition>, d: TableDefinition, db: Option<string>)
    requires KeyOf(d.handle) !in definitions
    ensures Lookup(definitions[KeyOf(d.handle) := d], TableHandle(db, d.handle.schema, d.handle.name, d.handle.requireNoSchema)) == Ok(d)
  {
  }

  /** Registering a definition only adds its own key: every other lookup by exact key is unchanged. */
  lemma RegisterKeepsOthers(definitions: map<RepositoryKey, TableDefinition>, d: TableDefinition, handle: TableHandle)
    requires KeyOf(d.handle) !in definitions && KeyOf(handle) in definitions
    ensures Lookup(definitions[KeyOf(d.handle) := d], handle) == Lookup(definitions, handle)
  {
  }

  /** Two definitions with the same name and schema cannot both be registered. */
  lemma {:induction false} RegisterAllDuplicate(definitions: seq<TableDefinition>, acc: map<RepositoryKey, TableDefinition>, i: nat, j: nat)
    requires i < j < |definitions| && KeyOf(definitions[i].handle) == KeyOf(definitions[j].handle)
    ensures RegisterAll(definitions, acc) == None
  {
    if KeyOf(definitions[0].handle) !in acc {
      var acc' := acc[KeyOf(definitions[0].handle) := definitions[0]];
      if i > 0 {
        RegisterAllDuplicate(definitions[1..], acc', i - 1, j - 1);
      } else {
        RegisterAllPresent(definitions[1..], acc', j - 1);
      }
    }
  }

  lemma {:induction false} RegisterAllPresent(definitions: seq<TableDefinition>, acc: map<RepositoryKey, TableDefinition>, j: nat)
    requires j < |definitions| && KeyOf(definitions[j].handle) in acc
    ensures RegisterAll(definitions, acc) == None
  {
    if j > 0 && KeyOf(definitions[0].handle) !in acc {
      RegisterAllPresent(definitions[1..], acc[KeyOf(definitions[0].handle) := definitions[0]], j - 1);
    }
  }

  /** With distinct keys, every definition is registered and found by its handle. */
  lemma {:induction false} RegisterAllFinds(definitions: seq<TableDefinition>, acc: map<RepositoryKey, TableDefinition>)
    requires forall i, j :: 0 <= i < j < |definitions| ==> KeyOf(definitions[i].handle) != KeyOf(definitions[j].handle)
    requires forall i :: 0 <= i < |definitions| ==> KeyOf(definitions[i].handle) !in acc
    ensures RegisterAll(definitions, acc).Some?
    ensures forall i :: 0 <= i < |definitions| ==> Lookup(RegisterAll(definitions, acc).value, definitions[i].handle) == Ok(definitions[i])
  {
    if definitions != [] {
      var acc' := acc[KeyOf(definitions[0].handle) := definitions[0]];
      var rest := definitions[1..];
      assert forall i :: 0 <= i < |rest| ==> rest[i] == definitions[i + 1];
      RegisterAllFinds(rest, acc');
      RegisterAllKeeps(rest, acc', KeyOf(definitions[0].handle));
    }
  }

  lemma {:induction false} RegisterAllKeeps(definitions: seq<TableDefinition>, acc: map<RepositoryKey, TableDefinition>, k: RepositoryKey)
    requires RegisterAll(definitions, acc).Some? && k in acc
    ensures k in RegisterAll(definitions, acc).value && RegisterAll(definitions, acc).value[k] == acc[k]
  {
    if definitions != [] {
      RegisterAllKeeps(definitions[1..], acc[KeyOf(definitions[0].handle) := definitions[0]], k);
    }
  }
}
