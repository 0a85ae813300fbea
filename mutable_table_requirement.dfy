/**
 * MutableTableRequirement: a table a test creates (and drops) itself, from a
 * table definition, under a handle, in one of three states. Requirements are
 * made by a builder whose handle starts as the definition's handle and whose
 * state starts as LOADED.
 */
module MutableTableRequirements {
  import opened Wrappers
  import opened Strings
  import opened TableHandles
  import opened TableDefinitions

  /** PREPARED: only registered and dropped; CREATED: created empty; LOADED: created with data. */
  datatype State = PREPARED | CREATED | LOADED

  function StateName(s: State): string
  {
    match s
    case PREPARED => "PREPARED"
    case CREATED => "CREATED"
    case LOADED => "LOADED"
  }

  /** State.valueOf: the exact constant name, otherwise an IllegalArgumentException (None). */
  function StateValueOf(name: string): (r: Option<State>)
    ensures r.Some? ==> StateName(r.value) == name
  {
    if name == "PREPARED" then Some(PREPARED)
    else if name == "CREATED" then Some(CREATED)
    else if name == "LOADED" then Some(LOADED)
    else None
  }

  datatype MutableTableRequirement = MutableTableRequirement(handle: TableHandle, state: State, definition: TableDefinition)

  class MutableTableRequirementBuilder {
    const tableDefinition: TableDefinition
    var tableHandle: TableHandle
    var state: State

    constructor(definition: TableDefinition)
      ensures tableDefinition == definition
      ensures tableHandle == definition.handle && state == LOADED
    {
      tableDefinition := definition;
      tableHandle := definition.handle;
      state := LOADED;
    }

    method WithName(name: string)
      modifies this
      ensures tableHandle == old(tableHandle).WithName(name) && state == old(state)
    {
      tableHandle := tableHandle.WithName(name);
    }

    method WithSchema(schema: string)
      modifies this
      ensures tableHandle == old(tableHandle).InSchema(schema) && state == old(state)
    {
      tableHandle := tableHandle.InSchema(schema);
    }

    method WithDatabase(database: string)
      modifies this
      ensures tableHandle == old(tableHandle).InDatabase(database) && state == old(state)
    {
      tableHandle := tableHandle.InDatabase(database);
    }

    method WithTableHandle(handle: TableHandle)
      modifies this
      ensures tableHandle == handle && state == old(state)
    {
      tableHandle := handle;
    }

    method WithState(newState: State)
      modifies this
      ensures state == newState && tableHandle == old(tableHandle)
    {
      state := newState;
    }

    method Build() returns (r: MutableTableRequirement)
      ensures r == MutableTableRequirement(tableHandle, state, tableDefinition)
    {
      r := MutableTableRequirement(tableHandle, state, tableDefinition);
    }
  }

  /**
   * builder(definition).build(): the definition's own handle, LOADED.
   */
  method DefaultRequirement(definition: TableDefinition) returns (r: MutableTableRequirement)
    ensures r.definition == definition && r.handle == definition.handle && r.state == LOADED
  {
    var builder := new MutableTableRequirementBuilder(definition);
    r := builder.Build();
  }

  /**
   * copyWithDatabase: the same definition and state, under the handle moved
   * to the database; the handle's name and schema are kept.
   */
  method CopyWithDatabase(requirement: MutableTableRequirement, databaseName: string) returns (r: MutableTableRequirement)
    ensures r == CopiedToDatabase(requirement, databaseName)
  {
    var tableHandle := requirement.handle.InDatabase(databaseName);
    var builder := new MutableTableRequirementBuilder(requirement.definition);
    builder.WithState(requirement.state);
    builder.WithTableHandle(tableHandle);
    r := builder.Build();
  }

  /** What copyWithDatabase produces, as a function for the lemmas below. */
  function CopiedToDatabase(requirement: MutableTableRequirement, databaseName: string): (r: MutableTableRequirement)
    ensures r.definition == requirement.definition && r.state == requirement.state
    ensures r.handle.database == Some(databaseName)
    ensures r.handle.name == requirement.handle.name && r.handle.schema == requirement.handle.schema
  {
    MutableTableRequirement(requirement.handle.InDatabase(databaseName), requirement.state, requirement.definition)
  }

  // ---------------------------------------------------------------------
  // Lemmas

  /** Copying to one database and then another is copying to the last one. */
  lemma CopyTwice(requirement: MutableTableRequirement, db1: string, db2: string)
    ensures CopiedToDatabase(CopiedToDatabase(requirement, db1), db2) == CopiedToDatabase(requirement, db2)
  {
  }

  /** Copying to the database a handle already names only drops its "no schema" flag. */
  lemma CopySameDatabase(requirement: MutableTableRequirement, db: string)
    requires requirement.handle.database == Some(db) && !requirement.handle.requireNoSchema
    ensures CopiedToDatabase(requirement, db) == requirement
  {
  }

  /** State.valueOf reads back every state's name and nothing else. */
  lemma StateNames(s: State, name: string)
    ensures StateValueOf(StateName(s)) == Some(s)
    ensures StateValueOf(name).Some? <==> name in {"PREPARED", "CREATED", "LOADED"}
  {
  }

  /** The upper-cased state is what a mutable table entry names: "created" is CREATED. */
  lemma StateIgnoresCase(s: State, name: string)
    requires EqualsIgnoreCase(name, StateName(s))
    ensures StateValueOf(ToUpper(name)) == Some(s)
  {
    var upper := ToUpper(name);
    var target := StateName(s);
    assert |upper| == |target|;
    forall k | 0 <= k < |target|
      ensures upper[k] == target[k]
    {
      assert ToLower(name)[k] == ToLower(target)[k];
      assert LowerChar(name[k]) == LowerChar(target[k]);
    }
    assert upper == target;
  }
}
