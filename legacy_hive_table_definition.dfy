/**
 * The older HiveTableDefinition: a table named by a plain string, a DDL
 * template with %NAME% and, for an unpartitioned table, %LOCATION%; either
 * one data source or a list of partitions. Partitions share the ALTER TABLE
 * template of the current definition.
 */
module LegacyHiveTableDefinitions {
  import opened Wrappers
  import opened Strings
  import opened DdlTemplates
  import opened HiveTableDefinitions

  /**
   * The fields of a definition. The name is the one handed to the table
   * definition base class; a builder whose name was never set passes None.
   */
  datatype LegacyHiveTableDefinition = LegacyHiveTableDefinition(
    name: Option<string>,
    createTableDDLTemplate: string,
    dataSource: Option<HiveDataSource>,
    partitionDefinitions: Option<seq<PartitionDefinition>>)
  {
    /**
     * What the constructor checks: exactly one of data source and
     * partitions, a %NAME% placeholder, and a %LOCATION% placeholder
     * exactly when the table is not partitioned.
     */
    predicate Valid()
    {
      dataSource.Some? != partitionDefinitions.Some? &&
      Contains(createTableDDLTemplate, NAME_MARKER) &&
      (Contains(createTableDDLTemplate, LOCATION_MARKER) <==> partitionDefinitions.None?)
    }

    predicate IsPartitioned()
    {
      partitionDefinitions.Some?
    }
  }

  /**
   * The private constructor. Both or neither of data source and partitions
   * is an IllegalArgumentException; a template never set is a
   * NullPointerException at the %NAME% check; a missing %NAME%, a
   * %LOCATION% in a partitioned template or none in an unpartitioned one is
   * an IllegalArgumentException.
   */
  function NewLegacyHiveTableDefinition(
    name: Option<string>,
    createTableDDLTemplate: Option<string>,
    dataSource: Option<HiveDataSource>,
    partitionDefinitions: Option<seq<PartitionDefinition>>): (r: Result<LegacyHiveTableDefinition>)
    ensures r.Ok? <==> (dataSource.Some? != partitionDefinitions.Some? && createTableDDLTemplate.Some? &&
      Contains(createTableDDLTemplate.value, NAME_MARKER) &&
      (Contains(createTableDDLTemplate.value, LOCATION_MARKER) <==> partitionDefinitions.None?))
    ensures r.Ok? ==> (r.value.Valid() &&
      r.value == LegacyHiveTableDefinition(name, createTableDDLTemplate.value, dataSource, partitionDefinitions))
    ensures dataSource.Some? == partitionDefinitions.Some? ==> r == Fail(IllegalArgument)
    ensures dataSource.Some? != partitionDefinitions.Some? && createTableDDLTemplate.None? ==> r == Fail(NullPointer)
    ensures (createTableDDLTemplate.Some? && partitionDefinitions.Some? &&
      Contains(createTableDDLTemplate.value, LOCATION_MARKER)) ==> r == Fail(IllegalArgument)
    ensures r.Fail? && createTableDDLTemplate.Some? ==> r.error == IllegalArgument
  {
    if dataSource.Some? == partitionDefinitions.Some? then Fail(IllegalArgument)
    else if createTableDDLTemplate.None? then Fail(NullPointer)
    else
      var template := createTableDDLTemplate.value;
      if !Contains(template, NAME_MARKER) then Fail(IllegalArgument)
      else if partitionDefinitions.Some? && Contains(template, LOCATION_MARKER) then Fail(IllegalArgument)
      else if partitionDefinitions.None? && !Contains(template, LOCATION_MARKER) then Fail(IllegalArgument)
      else Ok(LegacyHiveTableDefinition(name, template, dataSource, partitionDefinitions))
  }

  /** hiveTableDefinition(name, template, dataSource): an unpartitioned table. */
  function LegacyUnpartitioned(name: string, createTableDDLTemplate: string, dataSource: HiveDataSource): (r: Result<LegacyHiveTableDefinition>)
    ensures r.Ok? <==> Contains(createTableDDLTemplate, NAME_MARKER) && Contains(createTableDDLTemplate, LOCATION_MARKER)
    ensures r.Ok? ==> !r.value.IsPartitioned() && r.value.dataSource == Some(dataSource) && r.value.name == Some(name)
    ensures r.Fail? ==> r.error == IllegalArgument
  {
    NewLegacyHiveTableDefinition(Some(name), Some(createTableDDLTemplate), Some(dataSource), None)
  }

  /** getDataSource: refused (IllegalState) for a partitioned table. */
  function LegacyGetDataSource(d: LegacyHiveTableDefinition): (r: Result<HiveDataSource>)
    requires d.Valid()
    ensures r.Ok? <==> !d.IsPartitioned()
    ensures r.Ok? ==> d.dataSource == Some(r.value)
    ensures r.Fail? ==> r.error == IllegalState
  {
    if d.IsPartitioned() then Fail(IllegalState) else Ok(d.dataSource.value)
  }

  /** getPartitionDefinitons: refused (IllegalState) for an unpartitioned table. */
  function LegacyGetPartitionDefinitions(d: LegacyHiveTableDefinition): (r: Result<seq<PartitionDefinition>>)
    requires d.Valid()
    ensures r.Ok? <==> d.IsPartitioned()
    ensures r.Ok? ==> d.partitionDefinitions == Some(r.value) && d.dataSource.None?
    ensures r.Fail? ==> r.error == IllegalState
  {
    if d.IsPartitioned() then Ok(d.partitionDefinitions.value) else Fail(IllegalState)
  }

  /** getCreateTableDDL: every %NAME% becomes the name, then every %LOCATION% the location. */
  function LegacyGetCreateTableDDL(d: LegacyHiveTableDefinition, name: string, location: string): string
  {
    ReplaceAll(ReplaceAll(d.createTableDDLTemplate, NAME_MARKER, name), LOCATION_MARKER, location)
  }

  /** PartitionDefinition.getAddPartitionTableDDL: the table name, the spec and the location filled in. */
  function LegacyGetAddPartitionTableDDL(p: PartitionDefinition, tableName: string, location: string): string
  {
    ReplaceAll(ReplaceAll(ReplaceAll(ADD_PARTITION_DDL_TEMPLATE, NAME_MARKER, tableName),
      PARTITION_SPEC_MARKER, p.partitionSpec), LOCATION_MARKER, location)
  }

  /** The builder: every setter replaces one field; addPartition appends to the partition list. */
  class LegacyHiveTableDefinitionBuilder {
    var name: Option<string>
    var createTableDDLTemplate: Option<string>
    var dataSource: Option<HiveDataSource>
    var partitionDefinitions: Option<seq<PartitionDefinition>>

    /** builder(): nothing set. */
    constructor()
      ensures name == None && createTableDDLTemplate == None && dataSource == None && partitionDefinitions == None
    {
      name := None;
      createTableDDLTemplate := None;
      dataSource := None;
      partitionDefinitions := None;
    }

    method SetName(newName: string)
      modifies this
      ensures name == Some(newName)
      ensures createTableDDLTemplate == old(createTableDDLTemplate) && dataSource == old(dataSource)
      ensures partitionDefinitions == old(partitionDefinitions)
    {
      name := Some(newName);
    }

    method SetCreateTableDDLTemplate(template: string)
      modifies this
      ensures createTableDDLTemplate == Some(template)
      ensures name == old(name) && dataSource == old(dataSource) && partitionDefinitions == old(partitionDefinitions)
    {
      createTableDDLTemplate := Some(template);
    }

    method SetDataSource(source: HiveDataSource)
      modifies this
      ensures dataSource == Some(source)
      ensures name == old(name) && createTableDDLTemplate == old(createTableDDLTemplate)
      ensures partitionDefinitions == old(partitionDefinitions)
    {
      dataSource := Some(source);
    }

    /** addPartition: the first call starts the list; every call appends one partition at its end. */
    method AddPartition(partitionSpec: string, source: HiveDataSource)
      modifies this
      ensures partitionDefinitions == Some(old(partitionDefinitions).GetOr([]) + [PartitionDefinition(partitionSpec, source)])
      ensures name == old(name) && createTableDDLTemplate == old(createTableDDLTemplate) && dataSource == old(dataSource)
    {
      if partitionDefinitions.None? {
        partitionDefinitions := Some([]);
      }
      partitionDefinitions := Some(partitionDefinitions.value + [PartitionDefinition(partitionSpec, source)]);
    }

    /** build: the constructor's checks on the fields set so far. */
    method Build() returns (r: Result<LegacyHiveTableDefinition>)
      ensures r == NewLegacyHiveTableDefinition(name, createTableDDLTemplate, dataSource, partitionDefinitions)
    {
      r := NewLegacyHiveTableDefinition(name, createTableDDLTemplate, dataSource, partitionDefinitions);
    }
  }

  /**
   * like(definition): a new builder with the definition's name, template and
   * data source; getDataSource refuses a partitioned definition
   * (IllegalState), so no builder is made for one.
   */
  method Like(d: LegacyHiveTableDefinition) returns (r: Result<LegacyHiveTableDefinitionBuilder>)
    requires d.Valid()
    ensures r.Ok? <==> !d.IsPartitioned()
    ensures r.Fail? ==> r.error == IllegalState
    ensures r.Ok? ==> (fresh(r.value) && r.value.name == d.name &&
      r.value.createTableDDLTemplate == Some(d.createTableDDLTemplate) &&
      r.value.dataSource == d.dataSource && r.value.partitionDefinitions == None)
  {
    var source := LegacyGetDataSource(d);
    if source.Fail? {
      return Fail(source.error);
    }
    var builder := new LegacyHiveTableDefinitionBuilder();
    if d.name.Some? {
      builder.SetName(d.name.value);
    }
    builder.SetCreateTableDDLTemplate(d.createTableDDLTemplate);
    builder.SetDataSource(source.value);
    return Ok(builder);
  }

  // ---------------------------------------------------------------------
  // Lemmas

  /**
   * The DDL of a well-formed template: %NAME% and %LOCATION% substituted,
   * and neither placeholder left over.
   */
  lemma LegacyCreateTableDDL(d: LegacyHiveTableDefinition, ps: seq<Piece>, name: string, location: string)
    requires d.createTableDDLTemplate == Render(ps) && WellFormed(ps) && '%' !in name && '%' !in location
    ensures LegacyGetCreateTableDDL(d, name, location) == Render(Subst(Subst(ps, NAME, name), LOCATION, location))
    ensures !Contains(LegacyGetCreateTableDDL(d, name, location), NAME_MARKER)
    ensures !Contains(LegacyGetCreateTableDDL(d, name, location), LOCATION_MARKER)
  {
    MarkerNames();
    var named := Subst(ps, NAME, name);
    ReplaceRender(ps, NAME, name);
    SubstWellFormed(ps, NAME, name);
    var located := Subst(named, LOCATION, location);
    ReplaceRender(named, LOCATION, location);
    SubstWellFormed(named, LOCATION, location);
    SubstMarkers(ps, NAME, name, LOCATION);
    SubstMarkers(named, LOCATION, location, NAME);
    ContainsRender(located, NAME);
    ContainsRender(located, LOCATION);
  }

  /** A valid definition's template has a %LOCATION% marker exactly when the table is not partitioned. */
  lemma LocationMarkerIffUnpartitioned(d: LegacyHiveTableDefinition, ps: seq<Piece>)
    requires d.Valid() && d.createTableDDLTemplate == Render(ps) && WellFormed(ps)
    ensures Marker(LOCATION) in ps <==> !d.IsPartitioned()
    ensures Marker(NAME) in ps
  {
    MarkerNames();
    ContainsRender(ps, LOCATION);
    ContainsRender(ps, NAME);
  }

  /**
   * A partitioned table's create-table DDL does not depend on the location:
   * its template has no %LOCATION% to fill (each partition carries its own
   * location in the ALTER TABLE statement).
   */
  lemma PartitionedIgnoresLocation(d: LegacyHiveTableDefinition, ps: seq<Piece>, name: string, location1: string, location2: string)
    requires d.Valid() && d.IsPartitioned() && d.createTableDDLTemplate == Render(ps) && WellFormed(ps) && '%' !in name
    ensures LegacyGetCreateTableDDL(d, name, location1) == LegacyGetCreateTableDDL(d, name, location2)
    ensures LegacyGetCreateTableDDL(d, name, location1) == Render(Subst(ps, NAME, name))
  {
    MarkerNames();
    LocationMarkerIffUnpartitioned(d, ps);
    ReplaceRender(ps, NAME, name);
    SubstMarkers(ps, NAME, name, LOCATION);
    var named := Subst(ps, NAME, name);
    SubstWellFormed(ps, NAME, name);
    ContainsRender(named, LOCATION);
    ReplaceAbsent(Render(named), LOCATION_MARKER, location1);
    ReplaceAbsent(Render(named), LOCATION_MARKER, location2);
  }

  /** The ALTER TABLE statement of a partition: the table name, the partition spec and the location, each where its placeholder was. */
  lemma LegacyAddPartitionStatement(p: PartitionDefinition, tableName: string, location: string)
    requires '%' !in tableName && '%' !in p.partitionSpec
    ensures LegacyGetAddPartitionTableDDL(p, tableName, location) ==
      "ALTER TABLE " + tableName + " ADD PARTITION (" + p.partitionSpec + ") LOCATION '" + location + "'"
  {
    FilledAddPartition(tableName, p.partitionSpec, location);
  }

  /** A definition built by the constructor keeps its invariant, so its getters never fail for a missing value. */
  lemma LegacyBuiltIsValid(name: Option<string>, template: Option<string>, dataSource: Option<HiveDataSource>,
                           partitionDefinitions: Option<seq<PartitionDefinition>>)
    requires NewLegacyHiveTableDefinition(name, template, dataSource, partitionDefinitions).Ok?
    ensures var d := NewLegacyHiveTableDefinition(name, template, dataSource, partitionDefinitions).value;
      (LegacyGetDataSource(d).Ok? <==> partitionDefinitions.None?) &&
      (LegacyGetPartitionDefinitions(d).Ok? <==> partitionDefinitions.Some?)
  {
  }
}
