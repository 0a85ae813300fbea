/**
 * HiveTableDefinition: a Hive table described by a create-table DDL template
 * and either one data source or a list of partitions, each with its own
 * data source. The DDL is produced by filling the %NAME%, %LOCATION% and
 * %EXTERNAL% placeholders; a partition is added with an ALTER TABLE
 * statement built from a fixed template.
 */
module HiveTableDefinitions {
  import opened Wrappers
  import opened Strings
  import opened TableHandles
  import opened DdlTemplates
  import TablesState

  const NAME: string := "NAME"
  const LOCATION: string := "LOCATION"
  const PARTITION_SPEC: string := "PARTITION_SPEC"
  const EXTERNAL: string := "EXTERNAL"

  /** "%NAME%", "%LOCATION%", "%PARTITION_SPEC%" and "%EXTERNAL%". */
  const NAME_MARKER: string := MarkerText(NAME)
  const LOCATION_MARKER: string := MarkerText(LOCATION)
  const PARTITION_SPEC_MARKER: string := MarkerText(PARTITION_SPEC)
  const EXTERNAL_MARKER: string := MarkerText(EXTERNAL)

  /** The statement that adds one partition to a partitioned table. */
  const ADD_PARTITION_DDL_TEMPLATE: string :=
    "ALTER TABLE " + (NAME_MARKER + (" ADD PARTITION (" + (PARTITION_SPEC_MARKER + (") LOCATION '" + (LOCATION_MARKER + "'")))))

  /** A Hive data source, known here only by identity. */
  datatype HiveDataSource = HiveDataSource(id: nat)

  datatype PartitionDefinition = PartitionDefinition(partitionSpec: string, dataSource: HiveDataSource)

  datatype HiveTableDefinition = HiveTableDefinition(
    handle: TableHandle,
    createTableDDLTemplate: string,
    dataSource: Option<HiveDataSource>,
    partitionDefinitions: Option<seq<PartitionDefinition>>,
    injectStats: Option<bool>)
  {
    /** What the constructor checks: exactly one of data source and partitions, and a %NAME% placeholder. */
    predicate Valid()
    {
      dataSource.Some? != partitionDefinitions.Some? && Contains(createTableDDLTemplate, NAME_MARKER)
    }

    predicate IsPartitioned()
    {
      partitionDefinitions.Some?
    }
  }

  /**
   * The private constructor. Both or neither of data source and partitions
   * is an IllegalArgumentException; a template never set is a
   * NullPointerException at the placeholder check; a template without
   * %NAME% is an IllegalArgumentException.
   */
  function NewHiveTableDefinition(
    handle: TableHandle,
    createTableDDLTemplate: Option<string>,
    dataSource: Option<HiveDataSource>,
    partitionDefinitions: Option<seq<PartitionDefinition>>,
    injectStats: Option<bool>): (r: Result<HiveTableDefinition>)
    ensures r.Ok? <==> (dataSource.Some? != partitionDefinitions.Some? &&
      createTableDDLTemplate.Some? && Contains(createTableDDLTemplate.value, NAME_MARKER))
    ensures r.Ok? ==> (r.value.Valid() &&
      r.value == HiveTableDefinition(handle, createTableDDLTemplate.value, dataSource, partitionDefinitions, injectStats))
    ensures dataSource.Some? == partitionDefinitions.Some? ==> r == Fail(IllegalArgument)
    ensures dataSource.Some? != partitionDefinitions.Some? && createTableDDLTemplate.None? ==> r == Fail(NullPointer)
    ensures createTableDDLTemplate.Some? && !Contains(createTableDDLTemplate.value, NAME_MARKER) ==> r == Fail(IllegalArgument)
  {
    if dataSource.Some? == partitionDefinitions.Some? then Fail(IllegalArgument)
    else if createTableDDLTemplate.None? then Fail(NullPointer)
    else if !Contains(createTableDDLTemplate.value, NAME_MARKER) then Fail(IllegalArgument)
    else Ok(HiveTableDefinition(handle, createTableDDLTemplate.value, dataSource, partitionDefinitions, injectStats))
  }

  /** hiveTableDefinition(handle, template, dataSource): an unpartitioned table. */
  function Unpartitioned(handle: TableHandle, createTableDDLTemplate: string, dataSource: HiveDataSource): (r: Result<HiveTableDefinition>)
    ensures r.Ok? <==> Contains(createTableDDLTemplate, NAME_MARKER)
    ensures r.Ok? ==> !r.value.IsPartitioned() && r.value.dataSource == Some(dataSource) && r.value.injectStats == None
    ensures r.Fail? ==> r.error == IllegalArgument
  {
    NewHiveTableDefinition(handle, Some(createTableDDLTemplate), Some(dataSource), None, None)
  }

  /** getDataSource: refused (IllegalState) for a partitioned table. */
  function GetDataSource(d: HiveTableDefinition): (r: Result<HiveDataSource>)
    requires d.Valid()
    ensures r.Ok? <==> !d.IsPartitioned()
    ensures r.Ok? ==> d.dataSource == Some(r.value)
    ensures r.Fail? ==> r.error == IllegalState
  {
    if d.IsPartitioned() then Fail(IllegalState) else Ok(d.dataSource.value)
  }

  /** getPartitionDefinitions: refused (IllegalState) for an unpartitioned table. */
  function GetPartitionDefinitions(d: HiveTableDefinition): (r: Result<seq<PartitionDefinition>>)
    requires d.Valid()
    ensures r.Ok? <==> d.IsPartitioned()
    ensures r.Ok? ==> d.partitionDefinitions == Some(r.value) && d.dataSource.None?
    ensures r.Fail? ==> r.error == IllegalState
  {
    if d.IsPartitioned() then Ok(d.partitionDefinitions.value) else Fail(IllegalState)
  }

  /**
   * getCreateTableDDL: %NAME% becomes the name; with a location the table is
   * EXTERNAL and the location fills %LOCATION%, or is appended as a
   * LOCATION clause when the template has no such placeholder; without a
   * location %EXTERNAL% is removed.
   */
  function GetCreateTableDDL(d: HiveTableDefinition, name: string, location: Option<string>): string
  {
    var ddl := ReplaceAll(d.createTableDDLTemplate, NAME_MARKER, name);
    match location
    case None => ReplaceAll(ddl, EXTERNAL_MARKER, "")
    case Some(loc) =>
      var located := if Contains(ddl, LOCATION_MARKER) then ReplaceAll(ddl, LOCATION_MARKER, loc) else ddl + LocationClause(loc);
      ReplaceAll(located, EXTERNAL_MARKER, " EXTERNAL ")
  }

  /** The clause appended when the template has no %LOCATION% placeholder. */
  function LocationClause(location: string): string
  {
    " LOCATION '" + location + "'"
  }

  /** PartitionDefinition.getAddPartitionTableDDL: the table's name in the database, the spec and the location filled in. */
  function GetAddPartitionTableDDL(p: PartitionDefinition, tableName: TablesState.TableName, location: string): string
  {
    ReplaceAll(ReplaceAll(ReplaceAll(ADD_PARTITION_DDL_TEMPLATE, NAME_MARKER, tableName.nameInDatabase),
      PARTITION_SPEC_MARKER, p.partitionSpec), LOCATION_MARKER, location)
  }

  /** The builder: every setter replaces one field; addPartition appends to the partition list. */
  class HiveTableDefinitionBuilder {
    var handle: TableHandle
    var createTableDDLTemplate: Option<string>
    var dataSource: Option<HiveDataSource>
    var partitionDefinitions: Option<seq<PartitionDefinition>>
    var injectStats: Option<bool>

    /** builder(name). */
    constructor(name: string)
      ensures handle == Named(name) && createTableDDLTemplate == None
      ensures dataSource == None && partitionDefinitions == None && injectStats == None
    {
      handle := Named(name);
      createTableDDLTemplate := None;
      dataSource := None;
      partitionDefinitions := None;
      injectStats := None;
    }

    /** from(initialDefinition): a builder holding every field of the definition. */
    constructor From(d: HiveTableDefinition)
      ensures handle == d.handle && createTableDDLTemplate == Some(d.createTableDDLTemplate)
      ensures dataSource == d.dataSource && partitionDefinitions == d.partitionDefinitions && injectStats == d.injectStats
    {
      handle := d.handle;
      createTableDDLTemplate := Some(d.createTableDDLTemplate);
      dataSource := d.dataSource;
      partitionDefinitions := d.partitionDefinitions;
      injectStats := d.injectStats;
    }

    method InDatabase(database: string)
      modifies this
      ensures handle == old(handle).InDatabase(database)
      ensures createTableDDLTemplate == old(createTableDDLTemplate) && dataSource == old(dataSource)
      ensures partitionDefinitions == old(partitionDefinitions) && injectStats == old(injectStats)
    {
      handle := handle.InDatabase(database);
    }

    method InSchema(schema: string)
      modifies this
      ensures handle == old(handle).InSchema(schema)
      ensures createTableDDLTemplate == old(createTableDDLTemplate) && dataSource == old(dataSource)
      ensures partitionDefinitions == old(partitionDefinitions) && injectStats == old(injectStats)
    {
      handle := handle.InSchema(schema);
    }

    method SetName(name: string)
      modifies this
      ensures handle == old(handle).WithName(name)
      ensures createTableDDLTemplate == old(createTableDDLTemplate) && dataSource == old(dataSource)
      ensures partitionDefinitions == old(partitionDefinitions) && injectStats == old(injectStats)
    {
      handle := handle.WithName(name);
    }

    method SetCreateTableDDLTemplate(template: string)
      modifies this
      ensures createTableDDLTemplate == Some(template)
      ensures handle == old(handle) && dataSource == old(dataSource)
      ensures partitionDefinitions == old(partitionDefinitions) && injectStats == old(injectStats)
    {
      createTableDDLTemplate := Some(template);
    }

    method SetDataSource(source: HiveDataSource)
      modifies this
      ensures dataSource == Some(source)
      ensures handle == old(handle) && createTableDDLTemplate == old(createTableDDLTemplate)
      ensures partitionDefinitions == old(partitionDefinitions) && injectStats == old(injectStats)
    {
      dataSource := Some(source);
    }

    /** addPartition: the first call starts the list; every call appends one partition at its end. */
    method AddPartition(partitionSpec: string, source: HiveDataSource)
      modifies this
      ensures partitionDefinitions == Some(old(partitionDefinitions).GetOr([]) + [PartitionDefinition(partitionSpec, source)])
      ensures handle == old(handle) && createTableDDLTemplate == old(createTableDDLTemplate)
      ensures dataSource == old(dataSource) && injectStats == old(injectStats)
    {
      if partitionDefinitions.None? {
        partitionDefinitions := Some([]);
      }
      partitionDefinitions := Some(partitionDefinitions.value + [PartitionDefinition(partitionSpec, source)]);
    }

    method InjectStats(inject: bool)
      modifies this
      ensures injectStats == Some(inject)
      ensures handle == old(handle) && createTableDDLTemplate == old(createTableDDLTemplate)
      ensures dataSource == old(dataSource) && partitionDefinitions == old(partitionDefinitions)
    {
      injectStats := Some(inject);
    }

    /** build: the constructor's checks on the fields set so far. */
    method Build() returns (r: Result<HiveTableDefinition>)
      ensures r == NewHiveTableDefinition(handle, createTableDDLTemplate, dataSource, partitionDefinitions, injectStats)
    {
      r := NewHiveTableDefinition(handle, createTableDDLTemplate, dataSource, partitionDefinitions, injectStats);
    }
  }

  /**
   * like(definition): a builder with the definition's name, schema, template
   * and data source; the data source of a partitioned definition is an
   * IllegalStateException from getDataSource.
   */
  method Like(d: HiveTableDefinition) returns (r: Result<HiveTableDefinitionBuilder>)
    requires d.Valid()
    ensures r.Ok? <==> !d.IsPartitioned()
    ensures r.Fail? ==> r.error == IllegalState
    ensures r.Ok? ==> (fresh(r.value) && r.value.handle == LikeHandle(d.handle) &&
      r.value.createTableDDLTemplate == Some(d.createTableDDLTemplate) && r.value.dataSource == d.dataSource &&
      r.value.partitionDefinitions == None && r.value.injectStats == None)
  {
    var builder := new HiveTableDefinitionBuilder(d.handle.name);
    if d.handle.schema.Some? {
      builder.InSchema(d.handle.schema.value);
    }
    builder.SetCreateTableDDLTemplate(d.createTableDDLTemplate);
    var source := GetDataSource(d);
    if source.Fail? {
      return Fail(source.error);
    }
    builder.SetDataSource(source.value);
    r := Ok(builder);
  }

  // ---------------------------------------------------------------------
  // Lemmas

  /** The placeholder names are proper marker names. */
  lemma MarkerNames()
    ensures MarkerName(NAME) && MarkerName(LOCATION) && MarkerName(EXTERNAL) && MarkerName(PARTITION_SPEC)
  {
    UpperName(NAME);
    UpperName(LOCATION);
    UpperName(EXTERNAL);
    UpperName(PARTITION_SPEC);
  }

  lemma UpperName(m: string)
    requires m != [] && forall k :: 0 <= k < |m| ==> 'A' <= m[k] <= 'Z' || m[k] == '_'
    ensures MarkerName(m)
  {
  }

  /** The texts the DDL adds hold no '%'. */
  lemma AddedTexts(location: string)
    requires '%' !in location
    ensures '%' !in " EXTERNAL " && '%' !in ""
    ensures '%' !in LocationClause(location) && LocationClause(location)[0] == ' '
  {
  }

  /** Without a location: every %NAME% is the name, every %EXTERNAL% is removed, nothing is appended. */
  lemma CreateTableDDLWithoutLocation(d: HiveTableDefinition, ps: seq<Piece>, name: string)
    requires d.createTableDDLTemplate == Render(ps) && WellFormed(ps) && '%' !in name
    ensures GetCreateTableDDL(d, name, None) == Render(Subst(Subst(ps, NAME, name), EXTERNAL, ""))
    ensures !Contains(GetCreateTableDDL(d, name, None), NAME_MARKER)
    ensures !Contains(GetCreateTableDDL(d, name, None), EXTERNAL_MARKER)
  {
    MarkerNames();
    AddedTexts(name);
    var named := Subst(ps, NAME, name);
    ReplaceRender(ps, NAME, name);
    SubstWellFormed(ps, NAME, name);
    var filled := Subst(named, EXTERNAL, "");
    ReplaceRender(named, EXTERNAL, "");
    SubstWellFormed(named, EXTERNAL, "");
    SubstMarkers(ps, NAME, name, EXTERNAL);
    SubstMarkers(named, EXTERNAL, "", NAME);
    ContainsRender(filled, NAME);
    ContainsRender(filled, EXTERNAL);
  }

  /** A location with a %LOCATION% placeholder: the location fills it, the table is EXTERNAL, nothing is appended. */
  lemma CreateTableDDLLocationMarker(d: HiveTableDefinition, ps: seq<Piece>, name: string, location: string)
    requires d.createTableDDLTemplate == Render(ps) && WellFormed(ps) && '%' !in name && '%' !in location
    requires Marker(LOCATION) in ps
    ensures GetCreateTableDDL(d, name, Some(location)) ==
      Render(Subst(Subst(Subst(ps, NAME, name), LOCATION, location), EXTERNAL, " EXTERNAL "))
    ensures !Contains(GetCreateTableDDL(d, name, Some(location)), NAME_MARKER)
    ensures !Contains(GetCreateTableDDL(d, name, Some(location)), LOCATION_MARKER)
    ensures !Contains(GetCreateTableDDL(d, name, Some(location)), EXTERNAL_MARKER)
  {
    MarkerNames();
    AddedTexts(location);
    var named := Subst(ps, NAME, name);
    ReplaceRender(ps, NAME, name);
    SubstWellFormed(ps, NAME, name);
    SubstMarkers(ps, NAME, name, LOCATION);
    ContainsRender(named, LOCATION);
    var located := Subst(named, LOCATION, location);
    ReplaceRender(named, LOCATION, location);
    SubstWellFormed(named, LOCATION, location);
    var filled := Subst(located, EXTERNAL, " EXTERNAL ");
    ReplaceRender(located, EXTERNAL, " EXTERNAL ");
    SubstWellFormed(located, EXTERNAL, " EXTERNAL ");
    SubstMarkers(named, LOCATION, location, NAME);
    SubstMarkers(located, EXTERNAL, " EXTERNAL ", NAME);
    SubstMarkers(located, EXTERNAL, " EXTERNAL ", LOCATION);
    ContainsRender(filled, NAME);
    ContainsRender(filled, LOCATION);
    ContainsRender(filled, EXTERNAL);
  }

  /** A location and no %LOCATION% placeholder: the table is EXTERNAL and a LOCATION clause is appended. */
  lemma CreateTableDDLLocationAppended(d: HiveTableDefinition, ps: seq<Piece>, name: string, location: string)
    requires d.createTableDDLTemplate == Render(ps) && WellFormed(ps) && '%' !in name && '%' !in location
    requires Marker(LOCATION) !in ps
    ensures GetCreateTableDDL(d, name, Some(location)) ==
      Render(Subst(Subst(ps, NAME, name), EXTERNAL, " EXTERNAL ")) + LocationClause(location)
    ensures !Contains(GetCreateTableDDL(d, name, Some(location)), NAME_MARKER)
    ensures !Contains(GetCreateTableDDL(d, name, Some(location)), EXTERNAL_MARKER)
  {
    MarkerNames();
    AddedTexts(location);
    var named := Subst(ps, NAME, name);
    ReplaceRender(ps, NAME, name);
    SubstWellFormed(ps, NAME, name);
    SubstMarkers(ps, NAME, name, LOCATION);
    ContainsRender(named, LOCATION);
    var clause := LocationClause(location);
    var appended := named + [Text(clause)];
    RenderAppend(named, [Text(clause)]);
    assert Render([Text(clause)]) == clause;
    AppendWellFormed(named, clause);
    ReplaceRender(appended, EXTERNAL, " EXTERNAL ");
    SubstAppend(named, [Text(clause)], EXTERNAL, " EXTERNAL ");
    var filled := Subst(named, EXTERNAL, " EXTERNAL ");
    assert Subst([Text(clause)], EXTERNAL, " EXTERNAL ") == [Text(clause)];
    RenderAppend(filled, [Text(clause)]);
    SubstWellFormed(appended, EXTERNAL, " EXTERNAL ");
    SubstMarkers(ps, NAME, name, EXTERNAL);
    SubstMarkers(appended, EXTERNAL, " EXTERNAL ", NAME);
    assert Marker(NAME) !in appended;
    ContainsRender(Subst(appended, EXTERNAL, " EXTERNAL "), NAME);
    ContainsRender(Subst(appended, EXTERNAL, " EXTERNAL "), EXTERNAL);
  }

  /** The ALTER TABLE template as pieces. */
  function AddPartitionPieces(): seq<Piece>
  {
    [Text("ALTER TABLE "), Marker(NAME), Text(" ADD PARTITION ("), Marker(PARTITION_SPEC),
     Text(") LOCATION '"), Marker(LOCATION), Text("'")]
  }

  lemma AddPartitionTemplate()
    ensures Render(AddPartitionPieces()) == ADD_PARTITION_DDL_TEMPLATE
    ensures WellFormed(AddPartitionPieces())
  {
    MarkerNames();
    AddPartitionTexts();
    ThreeMarkers(AddPartitionPieces(), "ALTER TABLE ", NAME, " ADD PARTITION (", PARTITION_SPEC, ") LOCATION '", LOCATION, "'");
  }

  /**
   * Texts between markers: no '%' anywhere, and every text after a marker
   * starts with a character that cannot continue a marker name.
   */
  predicate PlainTexts(t0: string, t1: string, t2: string, t3: string)
  {
    '%' !in t0 && '%' !in t1 && '%' !in t2 && '%' !in t3 &&
    t1 != [] && t2 != [] && t3 != [] && !NameChar(t1[0]) && !NameChar(t2[0]) && !NameChar(t3[0])
  }

  lemma AddPartitionTexts()
    ensures PlainTexts("ALTER TABLE ", " ADD PARTITION (", ") LOCATION '", "'")
  {
    assert !NameChar(' ') && !NameChar(')') && !NameChar('\'');
  }

  /** Text, marker, text, marker, text, marker, text: the shape of the ALTER TABLE template. */
  predicate ThreeMarkerShape(ps: seq<Piece>, t0: string, m1: string, t1: string, m2: string, t2: string, m3: string, t3: string)
  {
    |ps| == 7 && ps[0] == Text(t0) && ps[1] == Marker(m1) && ps[2] == Text(t1) && ps[3] == Marker(m2) &&
    ps[4] == Text(t2) && ps[5] == Marker(m3) && ps[6] == Text(t3)
  }

  lemma ThreeMarkers(ps: seq<Piece>, t0: string, m1: string, t1: string, m2: string, t2: string, m3: string, t3: string)
    requires PlainTexts(t0, t1, t2, t3)
    requires MarkerName(m1) && MarkerName(m2) && MarkerName(m3)
    requires ThreeMarkerShape(ps, t0, m1, t1, m2, t2, m3, t3)
    ensures WellFormed(ps)
    ensures Render(ps) == t0 + (MarkerText(m1) + (t1 + (MarkerText(m2) + (t2 + (MarkerText(m3) + t3)))))
  {
    ThreeMarkersRender(ps, t0, m1, t1, m2, t2, m3, t3);
    ThreeMarkersWellFormed(ps, t0, m1, t1, m2, t2, m3, t3);
  }

  lemma ThreeMarkersRender(ps: seq<Piece>, t0: string, m1: string, t1: string, m2: string, t2: string, m3: string, t3: string)
    requires ThreeMarkerShape(ps, t0, m1, t1, m2, t2, m3, t3)
    ensures Render(ps) == t0 + (MarkerText(m1) + (t1 + (MarkerText(m2) + (t2 + (MarkerText(m3) + t3)))))
  {
    RenderStep(ps, 6, t3);
    RenderStep(ps, 5, MarkerText(m3) + t3);
    RenderStep(ps, 4, t2 + (MarkerText(m3) + t3));
    RenderStep(ps, 3, MarkerText(m2) + (t2 + (MarkerText(m3) + t3)));
    RenderStep(ps, 2, t1 + (MarkerText(m2) + (t2 + (MarkerText(m3) + t3))));
    RenderStep(ps, 1, MarkerText(m1) + (t1 + (MarkerText(m2) + (t2 + (MarkerText(m3) + t3)))));
    RenderStep(ps, 0, t0 + (MarkerText(m1) + (t1 + (MarkerText(m2) + (t2 + (MarkerText(m3) + t3))))));
  }

  lemma ThreeMarkersWellFormed(ps: seq<Piece>, t0: string, m1: string, t1: string, m2: string, t2: string, m3: string, t3: string)
    requires PlainTexts(t0, t1, t2, t3)
    requires MarkerName(m1) && MarkerName(m2) && MarkerName(m3)
    requires ThreeMarkerShape(ps, t0, m1, t1, m2, t2, m3, t3)
    ensures WellFormed(ps)
  {
    WellFormedStep(ps, 6);
    WellFormedStep(ps, 5);
    WellFormedStep(ps, 4);
    WellFormedStep(ps, 3);
    WellFormedStep(ps, 2);
    WellFormedStep(ps, 1);
    WellFormedStep(ps, 0);
  }

  /** Rendering text pieces only concatenates their texts. */
  lemma RenderTexts(ps: seq<Piece>, a: string, b: string, c: string, e: string, f: string, g: string, h: string)
    requires |ps| == 7 && ps[0] == Text(a) && ps[1] == Text(b) && ps[2] == Text(c) && ps[3] == Text(e)
    requires ps[4] == Text(f) && ps[5] == Text(g) && ps[6] == Text(h)
    ensures Render(ps) == a + (b + (c + (e + (f + (g + h)))))
  {
    RenderStep(ps, 6, h);
    RenderStep(ps, 5, g + h);
    RenderStep(ps, 4, f + (g + h));
    RenderStep(ps, 3, e + (f + (g + h)));
    RenderStep(ps, 2, c + (e + (f + (g + h))));
    RenderStep(ps, 1, b + (c + (e + (f + (g + h)))));
    RenderStep(ps, 0, a + (b + (c + (e + (f + (g + h))))));
  }

  /**
   * The ALTER TABLE statement of a partition: the table's name in the
   * database, the partition spec and the location, each where its
   * placeholder was.
   */
  lemma AddPartitionStatement(p: PartitionDefinition, tableName: TablesState.TableName, location: string)
    requires '%' !in tableName.nameInDatabase && '%' !in p.partitionSpec
    ensures GetAddPartitionTableDDL(p, tableName, location) ==
      "ALTER TABLE " + tableName.nameInDatabase + " ADD PARTITION (" + p.partitionSpec + ") LOCATION '" + location + "'"
  {
    FilledAddPartition(tableName.nameInDatabase, p.partitionSpec, location);
  }

  /** The three replaces over the ALTER TABLE template, for any name, spec and location. */
  lemma FilledAddPartition(name: string, spec: string, location: string)
    requires '%' !in name && '%' !in spec
    ensures ReplaceAll(ReplaceAll(ReplaceAll(ADD_PARTITION_DDL_TEMPLATE, NAME_MARKER, name), PARTITION_SPEC_MARKER, spec), LOCATION_MARKER, location) ==
      "ALTER TABLE " + name + " ADD PARTITION (" + spec + ") LOCATION '" + location + "'"
  {
    MarkerNames();
    AddPartitionTemplate();
    AddPartitionTexts();
    FillThreeMarkers(AddPartitionPieces(), "ALTER TABLE ", NAME, " ADD PARTITION (", PARTITION_SPEC, ") LOCATION '", LOCATION, "'", name, spec, location);
    Associate("ALTER TABLE ", name, " ADD PARTITION (", spec, ") LOCATION '", location, "'");
  }

  /** Filling the three markers of a text-marker-text template one after the other. */
  lemma FillThreeMarkers(ps: seq<Piece>, t0: string, m1: string, t1: string, m2: string, t2: string, m3: string, t3: string,
                         v1: string, v2: string, v3: string)
    requires PlainTexts(t0, t1, t2, t3)
    requires MarkerName(m1) && MarkerName(m2) && MarkerName(m3) && m1 != m2 && m1 != m3 && m2 != m3
    requires '%' !in v1 && '%' !in v2
    requires ThreeMarkerShape(ps, t0, m1, t1, m2, t2, m3, t3)
    ensures ReplaceAll(ReplaceAll(ReplaceAll(Render(ps), MarkerText(m1), v1), MarkerText(m2), v2), MarkerText(m3), v3) ==
      t0 + (v1 + (t1 + (v2 + (t2 + (v3 + t3)))))
  {
    ThreeMarkers(ps, t0, m1, t1, m2, t2, m3, t3);
    ReplaceRender(ps, m1, v1);
    SubstWellFormed(ps, m1, v1);
    var named := Subst(ps, m1, v1);
    ReplaceRender(named, m2, v2);
    SubstWellFormed(named, m2, v2);
    var specified := Subst(named, m2, v2);
    ReplaceRender(specified, m3, v3);
    ThreeSubsts(ps, t0, m1, t1, m2, t2, m3, t3, v1, v2, v3);
    RenderTexts(Subst(specified, m3, v3), t0, v1, t1, v2, t2, v3, t3);
  }

  /** Substituting the three distinct markers leaves only text. */
  lemma ThreeSubsts(ps: seq<Piece>, t0: string, m1: string, t1: string, m2: string, t2: string, m3: string, t3: string,
                    v1: string, v2: string, v3: string)
    requires m1 != m2 && m1 != m3 && m2 != m3
    requires ThreeMarkerShape(ps, t0, m1, t1, m2, t2, m3, t3)
    ensures var qs := Subst(Subst(Subst(ps, m1, v1), m2, v2), m3, v3);
      |qs| == 7 && qs[0] == Text(t0) && qs[1] == Text(v1) && qs[2] == Text(t1) && qs[3] == Text(v2) &&
      qs[4] == Text(t2) && qs[5] == Text(v3) && qs[6] == Text(t3)
  {
  }

  lemma Associate(a: string, b: string, c: string, e: string, f: string, g: string, h: string)
    ensures a + b + c + e + f + g + h == a + (b + (c + (e + (f + (g + h)))))
  {
  }

  /** A definition built by the constructor keeps its invariant, so its getters never fail for a missing value. */
  lemma BuiltIsValid(handle: TableHandle, template: Option<string>, dataSource: Option<HiveDataSource>,
                     partitionDefinitions: Option<seq<PartitionDefinition>>, injectStats: Option<bool>)
    requires NewHiveTableDefinition(handle, template, dataSource, partitionDefinitions, injectStats).Ok?
    ensures var d := NewHiveTableDefinition(handle, template, dataSource, partitionDefinitions, injectStats).value;
      (GetDataSource(d).Ok? <==> partitionDefinitions.None?) &&
      (GetPartitionDefinitions(d).Ok? <==> partitionDefinitions.Some?)
  {
  }

  /**
   * A builder made by like() from an unpartitioned definition builds a valid
   * copy of it, in no database and without the injectStats setting.
   */
  lemma LikeRebuilds(d: HiveTableDefinition)
    requires d.Valid() && !d.IsPartitioned()
    ensures NewHiveTableDefinition(LikeHandle(d.handle), Some(d.createTableDDLTemplate), d.dataSource, None, None) ==
      Ok(HiveTableDefinition(LikeHandle(d.handle), d.createTableDDLTemplate, d.dataSource, None, None))
  {
  }
}
