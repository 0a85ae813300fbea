/**
 * SqlQueryDescriptor: the header of a convention query file. It names the
 * database to run on, the immutable tables the query reads, the mutable
 * tables it needs (each as "definition|state|name"), its test groups and
 * its requirement classes.
 */
module SqlQueryDescriptors {
  import opened Wrappers
  import opened Strings
  import opened TableHandles
  import opened MutableTableRequirements
  import opened SqlDescriptors

  const GROUPS_HEADER_PROPERTY: string := "groups"
  const DATABASE_HEADER_PROPERTY: string := "database"
  const TABLES_HEADER_PROPERTY: string := "tables"
  const MUTABLE_TABLES_HEADER_PROPERTY: string := "mutable_tables"
  const REQUIRES_HEADER_PROPERTY: string := "requires"

  /** QueryExecutor.DEFAULT_DB_NAME. */
  const DEFAULT_DB_NAME: string := "default"

  datatype MutableTableDescriptor = MutableTableDescriptor(tableDefinitionName: string, state: State, tableHandle: TableHandle)

  /** getDatabaseName: the "database" property, or the default database. */
  function GetDatabaseName(d: SqlDescriptor): (r: string)
    ensures GetPropertyValue(d, DATABASE_HEADER_PROPERTY).None? ==> r == DEFAULT_DB_NAME
    ensures GetPropertyValue(d, DATABASE_HEADER_PROPERTY).Some? ==> r == GetPropertyValue(d, DATABASE_HEADER_PROPERTY).value
  {
    GetPropertyValue(d, DATABASE_HEADER_PROPERTY).GetOr(DEFAULT_DB_NAME)
  }

  /** TableHandle.parse over a list: the handles, or the first parse failure. */
  function ParseHandles(values: seq<string>): (r: Result<seq<TableHandle>>)
    ensures r.Ok? <==> forall k :: 0 <= k < |values| ==> Parse(values[k]).Ok?
    ensures r.Ok? ==> |r.value| == |values| && forall k :: 0 <= k < |values| ==> Parse(values[k]) == Ok(r.value[k])
    ensures r.Fail? ==> r.error == IllegalArgument
  {
    if values == [] then Ok([])
    else match Parse(values[0])
      case Fail(e) => Fail(e)
      case Ok(h) =>
        var rest := ParseHandles(values[1..]);
        assert forall k :: 0 < k < |values| ==> values[k] == values[1..][k - 1];
        match rest
        case Fail(e) => Fail(e)
        case Ok(hs) => Ok([h] + hs)
  }

  /** getTableDefinitionHandles: the set of the parsed "tables" values. */
  function GetTableDefinitionHandles(d: SqlDescriptor): (r: Result<set<TableHandle>>)
    ensures r.Ok? <==> forall v :: v in PropertyValues(d, TABLES_HEADER_PROPERTY) ==> Parse(v).Ok?
    ensures r.Ok? ==> forall h :: h in r.value <==> exists v :: v in PropertyValues(d, TABLES_HEADER_PROPERTY) && Parse(v) == Ok(h)
  {
    var values := PropertyValues(d, TABLES_HEADER_PROPERTY);
    match ParseHandles(values)
    case Fail(e) => Fail(e)
    case Ok(hs) =>
      assert forall h :: h in hs <==> exists k :: 0 <= k < |values| && Parse(values[k]) == Ok(h);
      Ok(set h | h in hs)
  }

  /**
   * One "definition|state|name" entry: at most three '|'-fields; the state
   * (upper-cased) defaults to LOADED and the name to the definition name.
   * Too many fields is an IllegalStateException; an unknown state or a bad
   * name an IllegalArgumentException.
   */
  function ParseMutableTableValue(value: string): (r: Result<MutableTableDescriptor>)
    ensures r.Fail? ==> r.error == IllegalState || r.error == IllegalArgument
  {
    var properties := SplitOn(value, "|");
    if |properties| > 3 then Fail(IllegalState)
    else
      var tableDefinitionName := properties[0];
      var state := if |properties| >= 2 then StateValueOf(ToUpper(properties[1])) else Some(LOADED);
      if state.None? then Fail(IllegalArgument)
      else
        var rawTableName := if |properties| >= 3 then properties[2] else tableDefinitionName;
        match Parse(rawTableName)
        case Fail(e) => Fail(e)
        case Ok(tableHandle) => Ok(MutableTableDescriptor(tableDefinitionName, state.value, tableHandle))
  }

  predicate HandleIn(handle: TableHandle, descriptors: seq<MutableTableDescriptor>)
  {
    exists k :: 0 <= k < |descriptors| && descriptors[k].tableHandle == handle
  }

  /** The entries read in order after `acc`: the first failure, or a handle seen before (IllegalState). */
  function Descriptors(values: seq<string>, acc: seq<MutableTableDescriptor>): Result<seq<MutableTableDescriptor>>
    decreases |values|
  {
    if values == [] then Ok(acc)
    else match ParseMutableTableValue(values[0])
      case Fail(e) => Fail(e)
      case Ok(m) => if HandleIn(m.tableHandle, acc) then Fail(IllegalState) else Descriptors(values[1..], acc + [m])
  }

  /** getMutableTableDescriptors: the entries of "mutable_tables", appended one by one after the duplicate check. */
  method GetMutableTableDescriptors(d: SqlDescriptor) returns (r: Result<seq<MutableTableDescriptor>>)
    ensures r == Descriptors(PropertyValues(d, MUTABLE_TABLES_HEADER_PROPERTY), [])
  {
    var mutableTableValues := GetPropertyValues(d, MUTABLE_TABLES_HEADER_PROPERTY);
    var mutableTableDescriptors: seq<MutableTableDescriptor> := [];
    var i := 0;
    while i < |mutableTableValues|
      invariant 0 <= i <= |mutableTableValues|
      invariant Descriptors(mutableTableValues, []) == Descriptors(mutableTableValues[i..], mutableTableDescriptors)
    {
      assert mutableTableValues[i..][1..] == mutableTableValues[i + 1..];
      var parsed := ParseMutableTableValue(mutableTableValues[i]);
      if parsed.Fail? {
        return Fail(parsed.error);
      }
      if HandleIn(parsed.value.tableHandle, mutableTableDescriptors) {
        return Fail(IllegalState);
      }
      mutableTableDescriptors := mutableTableDescriptors + [parsed.value];
      i := i + 1;
    }
    return Ok(mutableTableDescriptors);
  }

  /** getTestGroups: the set of "groups" values. */
  function GetTestGroups(d: SqlDescriptor): (r: set<string>)
    ensures forall g :: g in r <==> g in PropertyValues(d, GROUPS_HEADER_PROPERTY)
  {
    GetPropertyValuesSet(d, GROUPS_HEADER_PROPERTY)
  }

  /** getRequirementClassNames: the set of "requires" values. */
  function GetRequirementClassNames(d: SqlDescriptor): (r: set<string>)
    ensures forall c :: c in r <==> c in PropertyValues(d, REQUIRES_HEADER_PROPERTY)
  {
    GetPropertyValuesSet(d, REQUIRES_HEADER_PROPERTY)
  }

  // ---------------------------------------------------------------------
  // Lemmas

  predicate AllParse(values: seq<string>)
  {
    forall k :: 0 <= k < |values| ==> ParseMutableTableValue(values[k]).Ok?
  }

  function Parsed(values: seq<string>): (r: seq<MutableTableDescriptor>)
    requires AllParse(values)
    ensures |r| == |values| && forall k :: 0 <= k < |values| ==> r[k] == ParseMutableTableValue(values[k]).value
  {
    if values == [] then []
    else
      assert forall k :: 0 < k < |values| ==> values[k] == values[1..][k - 1];
      [ParseMutableTableValue(values[0]).value] + Parsed(values[1..])
  }

  predicate DistinctHandles(ms: seq<MutableTableDescriptor>)
  {
    forall i, j :: 0 <= i < j < |ms| ==> ms[i].tableHandle != ms[j].tableHandle
  }

  /**
   * The entries are accepted exactly when each parses and no two resolve to
   * the same table handle; then there is one descriptor per entry, in order.
   */
  lemma {:induction false} DescriptorsSpec(values: seq<string>, acc: seq<MutableTableDescriptor>)
    requires DistinctHandles(acc)
    ensures Descriptors(values, acc).Ok? <==> AllParse(values) && DistinctHandles(acc + Parsed(values))
    ensures Descriptors(values, acc).Ok? ==> Descriptors(values, acc).value == acc + Parsed(values)
    decreases |values|
  {
    if values == [] {
      assert acc + [] == acc;
    } else {
      var rest := values[1..];
      assert forall k :: 0 < k < |values| ==> values[k] == rest[k - 1];
      match ParseMutableTableValue(values[0])
      case Fail(e) =>
      case Ok(m) =>
        if AllParse(values) {
          assert Parsed(values) == [m] + Parsed(rest);
          assert acc + Parsed(values) == (acc + [m]) + Parsed(rest);
        }
        if HandleIn(m.tableHandle, acc) {
          var k :| 0 <= k < |acc| && acc[k].tableHandle == m.tableHandle;
          if AllParse(values) {
            var all := acc + Parsed(values);
            assert all[k] == acc[k] && all[|acc|] == m;
            assert all[k].tableHandle == all[|acc|].tableHandle;
          }
        } else {
          var acc' := acc + [m];
          assert DistinctHandles(acc');
          DescriptorsSpec(rest, acc');
        }
    }
  }

  /** Descriptors come out one per entry, in input order, with distinct handles. */
  lemma MutableTablesInOrder(values: seq<string>)
    ensures Descriptors(values, []).Ok? <==> AllParse(values) && DistinctHandles(Parsed(values))
    ensures Descriptors(values, []).Ok? ==>
      |Descriptors(values, []).value| == |values| &&
      forall k :: 0 <= k < |values| ==> Descriptors(values, []).value[k] == ParseMutableTableValue(values[k]).value
  {
    DescriptorsSpec(values, []);
    if AllParse(values) {
      assert [] + Parsed(values) == Parsed(values);
    }
  }

  /** Two entries naming the same table are rejected with an IllegalStateException, if nothing fails first. */
  lemma DuplicateRejected(values: seq<string>, i: nat, j: nat)
    requires i < j < |values| && AllParse(values)
    requires ParseMutableTableValue(values[i]).value.tableHandle == ParseMutableTableValue(values[j]).value.tableHandle
    ensures Descriptors(values, []).Fail?
  {
    MutableTablesInOrder(values);
  }

  /** A bare entry: the state is LOADED and the name is the definition name. */
  lemma BareEntry(name: string)
    requires '|' !in name && '.' !in name
    ensures ParseMutableTableValue(name) == Ok(MutableTableDescriptor(name, LOADED, Named(name)))
  {
    SplitJoinChar([name], '|');
    NoDotAbsent(name);
  }

  /** A full entry: the state read ignoring case, the handle parsed from the third field. */
  lemma FullEntry(definition: string, stateName: string, name: string)
    requires '|' !in definition && '|' !in stateName && '|' !in name
    ensures ParseMutableTableValue(definition + "|" + stateName + "|" + name) ==
      match StateValueOf(ToUpper(stateName))
      case None => Fail(IllegalArgument)
      case Some(s) =>
        match Parse(name)
        case Fail(e) => Fail(e)
        case Ok(h) => Ok(MutableTableDescriptor(definition, s, h))
  {
    var parts := [definition, stateName, name];
    assert Join(parts, "|") == definition + "|" + stateName + "|" + name by {
      assert parts[1..] == [stateName, name];
      assert parts[1..][1..] == [name];
      assert Join([name], "|") == name;
      assert Join([stateName, name], "|") == stateName + "|" + name;
      assert Join(parts, "|") == definition + "|" + (stateName + "|" + name);
    }
    SplitJoinChar(parts, '|');
  }

  /** An entry with more than three fields is an IllegalStateException. */
  lemma TooManyFields(parts: seq<string>)
    requires |parts| > 3
    requires forall k :: 0 <= k < |parts| ==> '|' !in parts[k]
    ensures ParseMutableTableValue(Join(parts, "|")) == Fail(IllegalState)
  {
    SplitJoinChar(parts, '|');
  }
}
