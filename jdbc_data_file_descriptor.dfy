/**
 * JdbcDataFileDescriptor: the data file of a convention table definition.
 * Its header must give the column types ("types", names joined by '|') and
 * may give a delimiter and trimValues; every content line is one row of
 * the table, read with the same line format as an expected-result file.
 */
module JdbcDataFileDescriptors {
  import opened Wrappers
  import opened Strings
  import opened JdbcTypes
  import opened Values
  import opened AnnotatedFileParser
  import opened SqlDescriptors
  import opened SqlResultDescriptors
  import QueryRowMapper

  datatype JdbcDataFileDescriptor = JdbcDataFileDescriptor(descriptor: SqlDescriptor, columnTypes: seq<JdbcType>)

  /**
   * The constructor: the section without base properties, and the column
   * types read from its "types" property; a missing property or an unknown
   * type name is an IllegalArgumentException.
   */
  function NewJdbcDataFileDescriptor(section: SectionParsingResult): (r: Result<JdbcDataFileDescriptor>)
    ensures section.GetProperty("types").None? ==> r == Fail(IllegalArgument)
    ensures section.GetProperty("types").Some? ==>
      var names := SplitOn(section.GetProperty("types").value, "|");
      (r.Ok? <==> KnownNames(names)) &&
      (r.Ok? ==> (|r.value.columnTypes| == |names| &&
        forall k :: 0 <= k < |names| ==> Name(r.value.columnTypes[k]) == names[k]))
    ensures r.Ok? ==> r.value.descriptor == OfSection(section)
    ensures r.Fail? ==> r.error == IllegalArgument
  {
    match section.GetProperty("types")
    case None => Fail(IllegalArgument)
    case Some(value) =>
      var parsed := TypesOf(SplitOn(value, "|"));
      if parsed.Fail? then Fail(IllegalArgument)
      else Ok(JdbcDataFileDescriptor(OfSection(section), parsed.value))
  }

  /**
   * getRows: an empty delimiter is refused by Splitter.on
   * (IllegalArgument); otherwise one row per content line, in order, the
   * first line that does not map stopping the reading.
   */
  function DataRows(d: JdbcDataFileDescriptor, parses: QueryRowMapper.Parses): (result: Result<seq<seq<Value>>>)
    ensures ColumnDelimiter(d.descriptor) == "" ==> result == Fail(IllegalArgument)
  {
    var delimiter := ColumnDelimiter(d.descriptor);
    if delimiter == "" then Fail(IllegalArgument)
    else LineRows(LineRow(d.columnTypes, delimiter, IsTrimValues(d.descriptor), parses), d.descriptor.section.contentLines, [])
  }

  /** getRows, appending the mapped row of each content line to a list. */
  method GetRows(d: JdbcDataFileDescriptor, parses: QueryRowMapper.Parses) returns (result: Result<seq<seq<Value>>>)
    ensures result == DataRows(d, parses)
  {
    var delimiter := ColumnDelimiter(d.descriptor);
    if delimiter == "" {
      return Fail(IllegalArgument);
    }
    var trimValues := IsTrimValues(d.descriptor);
    var rowOf := LineRow(d.columnTypes, delimiter, trimValues, parses);
    var lines := d.descriptor.section.contentLines;
    var values: seq<seq<Value>> := [];
    for i := 0 to |lines|
      invariant LineRows(rowOf, lines, []) == LineRows(rowOf, lines[i..], values)
    {
      assert lines[i..][1..] == lines[i + 1..];
      var rowValues := ParseLine(lines[i], delimiter, trimValues);
      var row := QueryRowMapper.MapToRow(d.columnTypes, rowValues, parses);
      assert row == rowOf(lines[i]);
      if row.Fail? {
        return Fail(row.error);
      }
      values := values + [row.value];
    }
    assert lines[|lines|..] == [];
    return Ok(values);
  }

  // ---------------------------------------------------------------------
  // Lemmas

  /** A data file header with no "types" property cannot be read. */
  lemma MissingTypes(section: SectionParsingResult)
    requires "types" !in section.properties
    ensures NewJdbcDataFileDescriptor(section) == Fail(IllegalArgument)
  {
  }

  /** The "types" header round trip: the names of the types, joined by '|', give back the types. */
  lemma ColumnTypesRoundTrip(section: SectionParsingResult, types: seq<JdbcType>)
    requires |types| >= 1
    requires "types" in section.properties && section.properties["types"] == Join(Names(types), "|")
    ensures NewJdbcDataFileDescriptor(section) == Ok(JdbcDataFileDescriptor(OfSection(section), types))
  {
    TypesRoundTrip(types);
  }

  /**
   * With a non-empty delimiter, the rows exist exactly when every content
   * line maps; then there is one row per line, in order, each with one
   * value per column type, read from the line's cells.
   */
  lemma DataRowsPerLine(d: JdbcDataFileDescriptor, parses: QueryRowMapper.Parses)
    requires ColumnDelimiter(d.descriptor) != ""
    ensures var delimiter := ColumnDelimiter(d.descriptor);
      var lines := d.descriptor.section.contentLines;
      var result := DataRows(d, parses);
      (result.Ok? <==> forall k :: 0 <= k < |lines| ==>
        QueryRowMapper.ConvertRow(d.columnTypes, ParseLine(lines[k], delimiter, IsTrimValues(d.descriptor)), parses).Ok?) &&
      (result.Ok? ==> (|result.value| == |lines| &&
        forall k :: 0 <= k < |lines| ==> (|result.value[k]| == |d.columnTypes| &&
          QueryRowMapper.ConvertRow(d.columnTypes, ParseLine(lines[k], delimiter, IsTrimValues(d.descriptor)), parses) == Ok(result.value[k]))))
  {
    var delimiter := ColumnDelimiter(d.descriptor);
    var trimValues := IsTrimValues(d.descriptor);
    var lines := d.descriptor.section.contentLines;
    var rowOf := LineRow(d.columnTypes, delimiter, trimValues, parses);
    assert DataRows(d, parses) == LineRows(rowOf, lines, []);
    LineRowWidth(d.columnTypes, delimiter, trimValues, parses);
    LineRowsPerLine(rowOf, lines, |d.columnTypes|);
    forall k | 0 <= k < |lines|
      ensures rowOf(lines[k]) == QueryRowMapper.ConvertRow(d.columnTypes, ParseLine(lines[k], delimiter, trimValues), parses)
    {
    }
  }

  /** A line written from its cells with a trailing delimiter is the row of exactly those cells. */
  lemma TrailingDelimiterRow(columnTypes: seq<JdbcType>, cells: seq<string>, c: char, trimValues: bool, parses: QueryRowMapper.Parses)
    requires |cells| >= 1 && c > ' '
    requires forall k :: 0 <= k < |cells| ==> c !in cells[k]
    requires trimValues ==> forall k :: 0 <= k < |cells| ==> GuavaTrimmed(cells[k])
    ensures LineRow(columnTypes, [c], trimValues, parses)(Join(cells, [c]) + [c]) == QueryRowMapper.ConvertRow(columnTypes, cells, parses)
  {
    ParseLineTrailing(cells, c, trimValues);
  }

  /** Without header properties other than "types", the delimiter is '|' and values are not trimmed. */
  lemma DataFileDefaults(d: JdbcDataFileDescriptor)
    requires d.descriptor.baseProperties == map[]
    requires "delimiter" !in d.descriptor.section.properties && "trimValues" !in d.descriptor.section.properties
    ensures ColumnDelimiter(d.descriptor) == "|" && !IsTrimValues(d.descriptor)
  {
  }
}
