/**
 * RelationalTableDefinition: a JDBC table described by a table handle, a
 * create-table DDL template with a %NAME% placeholder and a data source.
 */
module RelationalTableDefinitions {
  import opened Wrappers
  import opened Strings
  import opened TableHandles
  import opened DdlTemplates
  import HiveTableDefinitions

  /** A relational data source, known here only by identity. */
  datatype RelationalDataSource = RelationalDataSource(id: nat)

  datatype RelationalTableDefinition = RelationalTableDefinition(
    handle: TableHandle,
    createTableDDLTemplate: string,
    dataSource: RelationalDataSource)
  {
    /** What the constructor checks: the template has a %NAME% placeholder. */
    predicate Valid()
    {
      Contains(createTableDDLTemplate, HiveTableDefinitions.NAME_MARKER)
    }
  }

  /**
   * The constructor: a data source never set, then a template never set, is
   * a NullPointerException; a template without %NAME% is an
   * IllegalArgumentException.
   */
  function NewRelationalTableDefinition(
    handle: TableHandle,
    createTableDDLTemplate: Option<string>,
    dataSource: Option<RelationalDataSource>): (r: Result<RelationalTableDefinition>)
    ensures r.Ok? <==> (dataSource.Some? && createTableDDLTemplate.Some? &&
      Contains(createTableDDLTemplate.value, HiveTableDefinitions.NAME_MARKER))
    ensures r.Ok? ==> (r.value.Valid() &&
      r.value == RelationalTableDefinition(handle, createTableDDLTemplate.value, dataSource.value))
    ensures (dataSource.None? || createTableDDLTemplate.None?) ==> r == Fail(NullPointer)
    ensures (dataSource.Some? && createTableDDLTemplate.Some? && r.Fail?) ==> r.error == IllegalArgument
  {
    if dataSource.None? then Fail(NullPointer)
    else if createTableDDLTemplate.None? then Fail(NullPointer)
    else if !Contains(createTableDDLTemplate.value, HiveTableDefinitions.NAME_MARKER) then Fail(IllegalArgument)
    else Ok(RelationalTableDefinition(handle, createTableDDLTemplate.value, dataSource.value))
  }

  /** relationalTableDefinition(name, template, dataSource): a table under a bare name. */
  function RelationalTableDefinitionNamed(name: string, createTableDDLTemplate: string, dataSource: RelationalDataSource): (r: Result<RelationalTableDefinition>)
    ensures r.Ok? <==> Contains(createTableDDLTemplate, HiveTableDefinitions.NAME_MARKER)
    ensures r.Ok? ==> r.value.handle == Named(name) && r.value.dataSource == dataSource
    ensures r.Fail? ==> r.error == IllegalArgument
  {
    NewRelationalTableDefinition(Named(name), Some(createTableDDLTemplate), Some(dataSource))
  }

  /** getCreateTableDDL: every %NAME% becomes the name. */
  function GetCreateTableDDL(d: RelationalTableDefinition, name: string): string
  {
    ReplaceAll(d.createTableDDLTemplate, HiveTableDefinitions.NAME_MARKER, name)
  }

  /** The builder: withSchema and withDatabase change only the handle; the setters one field each. */
  class RelationalTableDefinitionBuilder {
    var handle: TableHandle
    var createTableDDLTemplate: Option<string>
    var dataSource: Option<RelationalDataSource>

    /** builder(name). */
    constructor(name: string)
      ensures handle == Named(name) && createTableDDLTemplate == None && dataSource == None
    {
      handle := Named(name);
      createTableDDLTemplate := None;
      dataSource := None;
    }

    method WithSchema(schema: string)
      modifies this
      ensures handle == old(handle).InSchema(schema)
      ensures createTableDDLTemplate == old(createTableDDLTemplate) && dataSource == old(dataSource)
    {
      handle := handle.InSchema(schema);
    }

    method WithDatabase(database: string)
      modifies this
      ensures handle == old(handle).InDatabase(database)
      ensures createTableDDLTemplate == old(createTableDDLTemplate) && dataSource == old(dataSource)
    {
      handle := handle.InDatabase(database);
    }

    method SetCreateTableDDLTemplate(template: string)
      modifies this
      ensures createTableDDLTemplate == Some(template)
      ensures handle == old(handle) && dataSource == old(dataSource)
    {
      createTableDDLTemplate := Some(template);
    }

    method SetDataSource(source: RelationalDataSource)
      modifies this
      ensures dataSource == Some(source)
      ensures handle == old(handle) && createTableDDLTemplate == old(createTableDDLTemplate)
    {
      dataSource := Some(source);
    }

    /** build: the constructor's checks on the fields set so far. */
    method Build() returns (r: Result<RelationalTableDefinition>)
      ensures r == NewRelationalTableDefinition(handle, createTableDDLTemplate, dataSource)
    {
      r := NewRelationalTableDefinition(handle, createTableDDLTemplate, dataSource);
    }
  }

  /** like(definition): a new builder with the definition's name, schema, template and data source. */
  method Like(d: RelationalTableDefinition) returns (b: RelationalTableDefinitionBuilder)
    ensures fresh(b)
    ensures b.handle == LikeHandle(d.handle)
    ensures b.createTableDDLTemplate == Some(d.createTableDDLTemplate) && b.dataSource == Some(d.dataSource)
  {
    b := new RelationalTableDefinitionBuilder(d.handle.name);
    b.SetCreateTableDDLTemplate(d.createTableDDLTemplate);
    b.SetDataSource(d.dataSource);
    if d.handle.schema.Some? {
      b.WithSchema(d.handle.schema.value);
    }
  }

  // ---------------------------------------------------------------------
  // Lemmas

  /** The DDL of a well-formed template: %NAME% substituted, and no placeholder of it left over. */
  lemma RelationalCreateTableDDL(d: RelationalTableDefinition, ps: seq<Piece>, name: string)
    requires d.createTableDDLTemplate == Render(ps) && WellFormed(ps) && '%' !in name
    ensures GetCreateTableDDL(d, name) == Render(Subst(ps, HiveTableDefinitions.NAME, name))
    ensures !Contains(GetCreateTableDDL(d, name), HiveTableDefinitions.NAME_MARKER)
  {
    HiveTableDefinitions.MarkerNames();
    ReplaceRender(ps, HiveTableDefinitions.NAME, name);
    SubstWellFormed(ps, HiveTableDefinitions.NAME, name);
    SubstMarkers(ps, HiveTableDefinitions.NAME, name, HiveTableDefinitions.LOCATION);
    ContainsRender(Subst(ps, HiveTableDefinitions.NAME, name), HiveTableDefinitions.NAME);
  }

  /**
   * Building what like() gives back succeeds and yields the same template
   * and data source under the same name and schema, with no database.
   */
  lemma LikeRebuilds(d: RelationalTableDefinition)
    requires d.Valid()
    ensures var r := NewRelationalTableDefinition(LikeHandle(d.handle), Some(d.createTableDDLTemplate), Some(d.dataSource));
      r.Ok? && r.value.createTableDDLTemplate == d.createTableDDLTemplate && r.value.dataSource == d.dataSource &&
      r.value.handle.name == d.handle.name && r.value.handle.schema == d.handle.schema && r.value.handle.database == None
  {
  }

  /** A definition with neither database nor the no-schema flag is rebuilt exactly by like(). */
  lemma LikeIdentity(d: RelationalTableDefinition)
    requires d.Valid() && d.handle.database == None && !d.handle.requireNoSchema
    ensures NewRelationalTableDefinition(LikeHandle(d.handle), Some(d.createTableDDLTemplate), Some(d.dataSource)) == Ok(d)
  {
  }
}
