/**
 * DefaultTableManagerDispatcher: picks the table manager for a table
 * definition. Managers are grouped by the definition class they handle; a
 * class with one manager needs nothing more, a class with several needs the
 * handle's database to choose.
 */
module TableManagerDispatcher {
  import opened Wrappers
  import opened TableHandles
  import opened TableDefinitions

  /** A table manager: the database it serves and the definition class it creates tables for. */
  datatype TableManager = TableManager(databaseName: string, definitionClass: string)

  /** The managers of one definition class, in the order the configuration lists them. */
  function ManagersOf(entries: seq<(string, TableManager)>, definitionClass: string): (r: seq<TableManager>)
    ensures forall m :: m in r ==> m.definitionClass == definitionClass
    ensures |r| <= |entries|
  {
    if entries == [] then []
    else if entries[0].1.definitionClass == definitionClass then [entries[0].1] + ManagersOf(entries[1..], definitionClass)
    else ManagersOf(entries[1..], definitionClass)
  }

  /** The configured database name -> manager map. */
  function ToMap(entries: seq<(string, TableManager)>): map<string, TableManager>
  {
    if entries == [] then map[] else ToMap(entries[1..])[entries[0].0 := entries[0].1]
  }

  class DefaultTableManagerDispatcher {
    var classToTableManagers: map<string, seq<TableManager>>
    var tableManagers: map<string, TableManager>

    /** The multimap holds, per class, exactly that class's managers, and no empty list. */
    predicate Valid()
      reads this
    {
      Grouping(classToTableManagers)
    }

    /**
     * Groups the configured managers (the entries of the map, in its iteration
     * order) by definition class. The entries come from a Java Map, so no
     * database name appears twice.
     */
    constructor(entries: seq<(string, TableManager)>)
      requires forall i, j :: 0 <= i < j < |entries| ==> entries[i].0 != entries[j].0
      ensures Valid()
      ensures tableManagers == ToMap(entries)
      ensures forall c :: c in classToTableManagers <==> ManagersOf(entries, c) != []
      ensures forall c :: c in classToTableManagers ==> classToTableManagers[c] == ManagersOf(entries, c)
    {
      var groups: map<string, seq<TableManager>> := map[];
      var i := 0;
      while i < |entries|
        invariant 0 <= i <= |entries|
        invariant GroupsOf(groups, entries[..i])
      {
        var manager := entries[i].1;
        var c := manager.definitionClass;
        AddToGroup(groups, entries[..i], entries[i]);
        assert entries[..i] + [entries[i]] == entries[..i + 1];
        var current := if c in groups then groups[c] else [];
        groups := groups[c := current + [manager]];
        i := i + 1;
      }
      assert entries[..i] == entries;
      GroupsAreGrouping(groups, entries);
      classToTableManagers := groups;
      tableManagers := ToMap(entries);
    }

    /** getTableManagerFor(definition, handle). */
    function GetTableManagerFor(definition: TableDefinition, handle: TableHandle): (r: Result<TableManager>)
      reads this
      requires Valid()
      ensures r == Dispatch(classToTableManagers, tableManagers, definition.definitionClass, handle)
    {
      Dispatch(classToTableManagers, tableManagers, definition.definitionClass, handle)
    }

    /** getAllTableManagers: the configured managers. */
    function GetAllTableManagers(): (r: set<TableManager>)
      reads this
      ensures forall m :: m in r <==> exists db :: db in tableManagers && tableManagers[db] == m
    {
      tableManagers.Values
    }
  }

  /** The multimap invariant: per class a non-empty list of managers of that class. */
  predicate Grouping(classToTableManagers: map<string, seq<TableManager>>)
  {
    (forall c :: c in classToTableManagers ==> classToTableManagers[c] != []) &&
    (forall c :: c in classToTableManagers ==> forall m :: m in classToTableManagers[c] ==> m.definitionClass == c)
  }

  /** The choice getTableManagerFor makes, over the dispatcher's two maps. */
  function Dispatch(classToTableManagers: map<string, seq<TableManager>>, tableManagers: map<string, TableManager>,
                    definitionClass: string, handle: TableHandle): (r: Result<TableManager>)
    requires Grouping(classToTableManagers)
    ensures r.Ok? ==> r.value.definitionClass == definitionClass
    ensures r.Fail? ==> r.error == IllegalState
  {
    if definitionClass !in classToTableManagers then Fail(IllegalState)
    else
      var classTableManagers := classToTableManagers[definitionClass];
      if |classTableManagers| == 1 then Ok(classTableManagers[0])
      else if handle.database.Some? then
        if handle.database.value !in tableManagers then Fail(IllegalState)
        else CheckTableDefinitionType(tableManagers[handle.database.value], definitionClass)
      else Fail(IllegalState)
  }

  /** checkTableDefinitionType: the manager chosen by database must handle the requested class. */
  function CheckTableDefinitionType(manager: TableManager, definitionClass: string): (r: Result<TableManager>)
    ensures r.Ok? <==> manager.definitionClass == definitionClass
    ensures r.Ok? ==> r.value == manager
    ensures r.Fail? ==> r.error == IllegalState
  {
    if manager.definitionClass == definitionClass then Ok(manager) else Fail(IllegalState)
  }

  // ---------------------------------------------------------------------
  // Lemmas

  /** The multimap built from the entries so far: per class, exactly that class's managers, in order. */
  ghost predicate GroupsOf(groups: map<string, seq<TableManager>>, entries: seq<(string, TableManager)>)
  {
    (forall c :: c in groups <==> ManagersOf(entries, c) != []) &&
    (forall c :: c in groups ==> groups[c] == ManagersOf(entries, c))
  }

  /** Appending one manager to its class's list extends the multimap by one entry. */
  lemma AddToGroup(groups: map<string, seq<TableManager>>, entries: seq<(string, TableManager)>, e: (string, TableManager))
    requires GroupsOf(groups, entries)
    ensures var c := e.1.definitionClass;
      GroupsOf(groups[c := (if c in groups then groups[c] else []) + [e.1]], entries + [e])
  {
    forall d ensures ManagersOf(entries + [e], d) == ManagersOf(entries, d) + (if e.1.definitionClass == d then [e.1] else []) {
      ManagersOfSnoc(entries, e, d);
    }
  }

  /** The multimap of all the entries keeps the dispatcher's invariant. */
  lemma GroupsAreGrouping(groups: map<string, seq<TableManager>>, entries: seq<(string, TableManager)>)
    requires GroupsOf(groups, entries)
    ensures Grouping(groups)
  {
    ManagersOfClass(entries);
  }

  lemma {:induction false} ManagersOfSnoc(entries: seq<(string, TableManager)>, e: (string, TableManager), c: string)
    ensures ManagersOf(entries + [e], c) == ManagersOf(entries, c) + (if e.1.definitionClass == c then [e.1] else [])
  {
    if entries == [] {
      assert [e][1..] == [];
    } else {
      assert (entries + [e])[1..] == entries[1..] + [e];
      ManagersOfSnoc(entries[1..], e, c);
    }
  }

  lemma ManagersOfClass(entries: seq<(string, TableManager)>)
    ensures forall c, m :: m in ManagersOf(entries, c) ==> m.definitionClass == c
  {
  }

  /** A class without managers is an IllegalStateException. */
  lemma DispatchUnmanaged(g: map<string, seq<TableManager>>, managers: map<string, TableManager>, c: string, h: TableHandle)
    requires Grouping(g) && c !in g
    ensures Dispatch(g, managers, c, h) == Fail(IllegalState)
  {
  }

  /** A class with a single manager gets that manager, whatever the handle's database. */
  lemma DispatchSingle(g: map<string, seq<TableManager>>, managers: map<string, TableManager>, c: string, h1: TableHandle, h2: TableHandle)
    requires Grouping(g) && c in g && |g[c]| == 1
    ensures Dispatch(g, managers, c, h1) == Dispatch(g, managers, c, h2) == Ok(g[c][0])
  {
  }

  /** With several managers, the handle's database picks one, which must handle the class. */
  lemma DispatchByDatabase(g: map<string, seq<TableManager>>, managers: map<string, TableManager>, c: string, h: TableHandle)
    requires Grouping(g) && c in g && |g[c]| > 1 && h.database.Some?
    ensures h.database.value !in managers ==> Dispatch(g, managers, c, h) == Fail(IllegalState)
    ensures h.database.value in managers ==>
      (Dispatch(g, managers, c, h).Ok? <==> managers[h.database.value].definitionClass == c)
    ensures Dispatch(g, managers, c, h).Ok? ==> Dispatch(g, managers, c, h).value == managers[h.database.value]
  {
  }

  /** With several managers and no database in the handle, there is no choice. */
  lemma DispatchAmbiguous(g: map<string, seq<TableManager>>, managers: map<string, TableManager>, c: string, h: TableHandle)
    requires Grouping(g) && c in g && |g[c]| > 1 && h.database.None?
    ensures Dispatch(g, managers, c, h) == Fail(IllegalState)
  {
  }
}
