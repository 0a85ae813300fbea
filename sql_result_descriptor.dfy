/**
 * SqlResultDescriptor: the expected-result file of a convention test. Its
 * header may give the column types and the flags ignoreOrder,
 * ignoreExcessRows, trimValues and joinAllRowsToOne and a column delimiter;
 * its content lines are the rows, cells separated by the delimiter with an
 * optional trailing delimiter.
 */
module SqlResultDescriptors {
  import opened Wrappers
  import opened Strings
  import opened JdbcTypes
  import opened Values
  import opened AnnotatedFileParser
  import opened SqlDescriptors
  import QueryRowMapper

  const DEFAULT_COLUMN_DELIMITER: string := "|"
  const DEFAULT_FLAG: string := "false"

  datatype SqlResultDescriptor = SqlResultDescriptor(descriptor: SqlDescriptor, expectedTypes: Option<seq<JdbcType>>)

  /** Every name is the name of a JDBCType constant. */
  predicate KnownNames(names: seq<string>)
  {
    forall k :: 0 <= k < |names| ==> ValueOf(names[k]).Some?
  }

  /** JDBCType.valueOf over names: the types, or IllegalArgument at the first unknown name. */
  function TypesOf(names: seq<string>): (r: Result<seq<JdbcType>>)
    ensures r.Ok? <==> KnownNames(names)
    ensures r.Ok? ==> |r.value| == |names| && forall k :: 0 <= k < |names| ==> Name(r.value[k]) == names[k]
    ensures r.Fail? ==> r.error == IllegalArgument
  {
    if names == [] then Ok([])
    else match ValueOf(names[0])
      case None => Fail(IllegalArgument)
      case Some(t) =>
        assert forall k :: 0 < k < |names| ==> names[k] == names[1..][k - 1];
        match TypesOf(names[1..])
        case Fail(e) => Fail(e)
        case Ok(ts) => Ok([t] + ts)
  }

  /**
   * The constructor: the section's own "types" property (never the base's),
   * read when present; an unknown type name fails the construction.
   */
  function NewSqlResultDescriptor(section: SectionParsingResult, baseProperties: map<string, string>): (r: Result<SqlResultDescriptor>)
    ensures r.Ok? ==> r.value.descriptor == SqlDescriptor(section, baseProperties)
    ensures section.GetProperty("types").None? ==> r.Ok? && r.value.expectedTypes.None?
    ensures section.GetProperty("types").Some? ==>
      var names := SplitOn(section.GetProperty("types").value, "|");
      (r.Ok? <==> KnownNames(names)) &&
      (r.Ok? ==> (r.value.expectedTypes.Some? && |r.value.expectedTypes.value| == |names| &&
        forall k :: 0 <= k < |names| ==> Name(r.value.expectedTypes.value[k]) == names[k]))
    ensures r.Fail? ==> r.error == IllegalArgument
  {
    match section.GetProperty("types")
    case None => Ok(SqlResultDescriptor(SqlDescriptor(section, baseProperties), None))
    case Some(value) =>
      var names := SplitOn(value, "|");
      var parsed := TypesOf(names);
      if parsed.Fail? then Fail(IllegalArgument)
      else Ok(SqlResultDescriptor(SqlDescriptor(section, baseProperties), Some(parsed.value)))
  }

  /** Boolean.valueOf of a property with default "false": true only for a "true" value, in any case. */
  function Flag(d: SqlDescriptor, property: string): (b: bool)
    ensures b <==> GetPropertyValue(d, property).Some? && EqualsIgnoreCase(GetPropertyValue(d, property).value, "true")
  {
    assert !EqualsIgnoreCase(DEFAULT_FLAG, "true") by {
      assert ToLower(DEFAULT_FLAG)[0] == 'f';
    }
    BooleanValueOf(GetPropertyValue(d, property).GetOr(DEFAULT_FLAG))
  }

  function IsIgnoreOrder(r: SqlResultDescriptor): bool
  {
    Flag(r.descriptor, "ignoreOrder")
  }

  function IsIgnoreExcessRows(r: SqlResultDescriptor): bool
  {
    Flag(r.descriptor, "ignoreExcessRows")
  }

  function IsTrimValues(d: SqlDescriptor): bool
  {
    Flag(d, "trimValues")
  }

  function IsJoinAllRowsToOne(r: SqlResultDescriptor): bool
  {
    Flag(r.descriptor, "joinAllRowsToOne")
  }

  /** getColumnDelimiter: the "delimiter" property, '|' by default. */
  function ColumnDelimiter(d: SqlDescriptor): (delimiter: string)
    ensures GetPropertyValue(d, "delimiter").None? ==> delimiter == DEFAULT_COLUMN_DELIMITER
    ensures GetPropertyValue(d, "delimiter").Some? ==> delimiter == GetPropertyValue(d, "delimiter").value
  {
    GetPropertyValue(d, "delimiter").GetOr(DEFAULT_COLUMN_DELIMITER)
  }

  /**
   * parseLine: the cells between delimiters (each trimmed of Guava
   * whitespace when trimValues is set); when the line, trimmed as by
   * String.trim, ends with the delimiter, the last (empty) cell is dropped.
   */
  function ParseLine(line: string, delimiter: string, trimValues: bool): (r: seq<string>)
    requires |delimiter| > 0
  {
    var pieces := SplitOn(line, delimiter);
    var cells := if trimValues then seq(|pieces|, k requires 0 <= k < |pieces| => GuavaTrim(pieces[k])) else pieces;
    if EndsWith(JavaTrim(line), delimiter) then cells[..|cells| - 1] else cells
  }

  /** One content line as a row: parseLine, then QueryRowMapper.mapToRow. */
  function LineRow(columnTypes: seq<JdbcType>, delimiter: string, trimValues: bool, parses: QueryRowMapper.Parses): (rowOf: string -> Result<seq<Value>>)
    requires |delimiter| > 0
  {
    line => RowOfLine(columnTypes, delimiter, trimValues, parses, line)
  }

  function RowOfLine(columnTypes: seq<JdbcType>, delimiter: string, trimValues: bool, parses: QueryRowMapper.Parses, line: string): Result<seq<Value>>
    requires |delimiter| > 0
  {
    QueryRowMapper.ConvertRow(columnTypes, ParseLine(line, delimiter, trimValues), parses)
  }

  /** Every row of a content line has one value per column type. */
  lemma LineRowWidth(columnTypes: seq<JdbcType>, delimiter: string, trimValues: bool, parses: QueryRowMapper.Parses)
    requires |delimiter| > 0
    ensures RowsWidth(LineRow(columnTypes, delimiter, trimValues, parses), |columnTypes|)
  {
    var rowOf := LineRow(columnTypes, delimiter, trimValues, parses);
    forall line ensures rowOf(line).Ok? ==> |rowOf(line).value| == |columnTypes| {
      assert rowOf(line) == RowOfLine(columnTypes, delimiter, trimValues, parses, line);
      QueryRowMapper.ConvertRowWidth(columnTypes, ParseLine(line, delimiter, trimValues), parses);
    }
  }

  /** Every row the function makes has `width` values. */
  ghost predicate RowsWidth(rowOf: string -> Result<seq<Value>>, width: nat)
  {
    forall line :: rowOf(line).Ok? ==> |rowOf(line).value| == width
  }

  predicate AllWidth(rows: seq<seq<Value>>, width: nat)
  {
    forall k :: 0 <= k < |rows| ==> |rows[k]| == width
  }

  /** Rows of a fixed width stay of that width once gathered. */
  lemma LineRowsWidth(rowOf: string -> Result<seq<Value>>, lines: seq<string>, width: nat)
    requires RowsWidth(rowOf, width)
    requires LineRows(rowOf, lines, []).Ok?
    ensures AllWidth(LineRows(rowOf, lines, []).value, width)
  {
    LineRowsValues(rowOf, lines, []);
    var rows := LineRows(rowOf, lines, []).value;
    forall k | 0 <= k < |rows| ensures |rows[k]| == width {
      assert rowOf(lines[k]) == Ok(rows[k]);
    }
  }

  /** The rows of the lines after `acc`, one line at a time; the first failure stops. */
  function LineRows(rowOf: string -> Result<seq<Value>>, lines: seq<string>, acc: seq<seq<Value>>): Result<seq<seq<Value>>>
    decreases |lines|
  {
    if lines == [] then Ok(acc)
    else match rowOf(lines[0])
      case Fail(e) => Fail(e)
      case Ok(row) => LineRows(rowOf, lines[1..], acc + [row])
  }

  /** String.valueOf of each row's first value. */
  function FirstCells(rows: seq<seq<Value>>, showOpaque: (OpaqueKind, string) -> string): (r: seq<string>)
    ensures |r| == |rows| && forall k :: 0 <= k < |rows| && |rows[k]| >= 1 ==> r[k] == Show(rows[k][0], showOpaque)
  {
    if rows == [] then []
    else
      assert forall k :: 0 < k < |rows| ==> rows[k] == rows[1..][k - 1];
      [if rows[0] == [] then "" else Show(rows[0][0], showOpaque)] + FirstCells(rows[1..], showOpaque)
  }

  /**
   * The rows of the lines, then the joinAllRowsToOne step: with the flag
   * set, the rows of exactly one column are joined by newlines into one row
   * of one value, and any other width is an IllegalStateException.
   */
  function RowsOf(rowOf: string -> Result<seq<Value>>, lines: seq<string>, joinAllRowsToOne: bool, width: nat,
                  showOpaque: (OpaqueKind, string) -> string): Result<seq<seq<Value>>>
  {
    match LineRows(rowOf, lines, [])
    case Fail(e) => Fail(e)
    case Ok(rows) =>
      if !joinAllRowsToOne then Ok(rows)
      else if width != 1 then Fail(IllegalState)
      else Ok([[Str(Join(FirstCells(rows, showOpaque), "\n"))]])
  }

  /**
   * getRows: an empty delimiter is refused by Splitter.on
   * (IllegalArgument); otherwise the content lines are read as rows of the
   * given column types.
   */
  function Rows(r: SqlResultDescriptor, columnTypes: seq<JdbcType>, parses: QueryRowMapper.Parses,
                showOpaque: (OpaqueKind, string) -> string): (result: Result<seq<seq<Value>>>)
    ensures ColumnDelimiter(r.descriptor) == "" ==> result == Fail(IllegalArgument)
  {
    var delimiter := ColumnDelimiter(r.descriptor);
    if delimiter == "" then Fail(IllegalArgument)
    else
      RowsOf(LineRow(columnTypes, delimiter, IsTrimValues(r.descriptor), parses), r.descriptor.section.contentLines,
             IsJoinAllRowsToOne(r), |columnTypes|, showOpaque)
  }

  /** getRows, mapping the lines one at a time. */
  method GetRows(r: SqlResultDescriptor, columnTypes: seq<JdbcType>, parses: QueryRowMapper.Parses,
                 showOpaque: (OpaqueKind, string) -> string) returns (result: Result<seq<seq<Value>>>)
    ensures result == Rows(r, columnTypes, parses, showOpaque)
  {
    var delimiter := ColumnDelimiter(r.descriptor);
    if delimiter == "" {
      return Fail(IllegalArgument);
    }
    var trimValues := IsTrimValues(r.descriptor);
    var rowOf := LineRow(columnTypes, delimiter, trimValues, parses);
    var lines := r.descriptor.section.contentLines;
    var values: seq<seq<Value>> := [];
    for i := 0 to |lines|
      invariant LineRows(rowOf, lines, []) == LineRows(rowOf, lines[i..], values)
    {
      assert lines[i..][1..] == lines[i + 1..];
      var rowValues := ParseLine(lines[i], delimiter, trimValues);
      var row := QueryRowMapper.MapToRow(columnTypes, rowValues, parses);
      assert row == rowOf(lines[i]);
      if row.Fail? {
        return Fail(row.error);
      }
      values := values + [row.value];
    }
    assert lines[|lines|..] == [];
    if IsJoinAllRowsToOne(r) {
      if |columnTypes| != 1 {
        return Fail(IllegalState);
      }
      return Ok([[Str(Join(FirstCells(values, showOpaque), "\n"))]]);
    }
    return Ok(values);
  }

  // ---------------------------------------------------------------------
  // Lemmas

  predicate LinesConvert(rowOf: string -> Result<seq<Value>>, lines: seq<string>)
  {
    forall k :: 0 <= k < |lines| ==> rowOf(lines[k]).Ok?
  }

  /** The lines give rows exactly when every line converts. */
  lemma {:induction false} LineRowsOk(rowOf: string -> Result<seq<Value>>, lines: seq<string>, acc: seq<seq<Value>>)
    ensures LineRows(rowOf, lines, acc).Ok? <==> LinesConvert(rowOf, lines)
    decreases |lines|
  {
    if lines != [] {
      var rest := lines[1..];
      assert forall k :: 0 < k < |lines| ==> lines[k] == rest[k - 1];
      if rowOf(lines[0]).Ok? {
        LineRowsOk(rowOf, rest, acc + [rowOf(lines[0]).value]);
      }
    }
  }

  /** The rows start with `acc`, then come one per line, in order. */
  lemma {:induction false} LineRowsValues(rowOf: string -> Result<seq<Value>>, lines: seq<string>, acc: seq<seq<Value>>)
    requires LineRows(rowOf, lines, acc).Ok?
    ensures var rows := LineRows(rowOf, lines, acc).value;
      |rows| == |acc| + |lines| &&
      (forall j :: 0 <= j < |acc| ==> rows[j] == acc[j]) &&
      forall k :: 0 <= k < |lines| ==> rowOf(lines[k]) == Ok(rows[|acc| + k])
    decreases |lines|
  {
    if lines != [] {
      var rest := lines[1..];
      assert forall k :: 0 < k < |lines| ==> lines[k] == rest[k - 1];
      var acc' := acc + [rowOf(lines[0]).value];
      LineRowsValues(rowOf, rest, acc');
      var rows := LineRows(rowOf, rest, acc').value;
      assert rows[|acc|] == acc'[|acc|];
    }
  }

  /** One row per line, in order, each of the given width, exactly when every line converts. */
  lemma LineRowsPerLine(rowOf: string -> Result<seq<Value>>, lines: seq<string>, width: nat)
    requires RowsWidth(rowOf, width)
    ensures var result := LineRows(rowOf, lines, []);
      (result.Ok? <==> LinesConvert(rowOf, lines)) &&
      (result.Ok? ==> (|result.value| == |lines| &&
        forall k :: 0 <= k < |lines| ==> (|result.value[k]| == width && rowOf(lines[k]) == Ok(result.value[k]))))
  {
    LineRowsOk(rowOf, lines, []);
    if LinesConvert(rowOf, lines) {
      LineRowsValues(rowOf, lines, []);
      LineRowsWidth(rowOf, lines, width);
    }
  }

  /** The first line that does not convert decides the error. */
  lemma {:induction false} LineRowsFirstFailure(rowOf: string -> Result<seq<Value>>, lines: seq<string>, acc: seq<seq<Value>>, i: nat)
    requires i < |lines| && LinesConvert(rowOf, lines[..i]) && rowOf(lines[i]).Fail?
    ensures LineRows(rowOf, lines, acc) == Fail(rowOf(lines[i]).error)
    decreases i
  {
    assert rowOf(lines[0]).Ok? ==> i > 0 by {
      if i == 0 {
        assert lines[0] == lines[i];
      }
    }
    if i > 0 {
      assert lines[..i][0] == lines[0];
      var rest := lines[1..];
      var before := rest[..i - 1];
      forall k | 0 <= k < |before| ensures rowOf(before[k]).Ok? {
        assert before[k] == lines[..i][k + 1];
      }
      assert rest[i - 1] == lines[i];
      LineRowsFirstFailure(rowOf, rest, acc + [rowOf(lines[0]).value], i - 1);
    }
  }

  /** Without joinAllRowsToOne, getRows gives one row per content line, in order. */
  lemma RowsPerLine(rowOf: string -> Result<seq<Value>>, lines: seq<string>, width: nat, showOpaque: (OpaqueKind, string) -> string)
    ensures var result := RowsOf(rowOf, lines, false, width, showOpaque);
      (result.Ok? <==> LinesConvert(rowOf, lines)) &&
      (result.Ok? ==> (|result.value| == |lines| &&
        forall k :: 0 <= k < |lines| ==> rowOf(lines[k]) == Ok(result.value[k])))
  {
    LineRowsOk(rowOf, lines, []);
    if LinesConvert(rowOf, lines) {
      LineRowsValues(rowOf, lines, []);
    }
  }

  /** Reading stops at the first line that does not convert, with that line's error, whatever the flag. */
  lemma RowsFirstFailure(rowOf: string -> Result<seq<Value>>, lines: seq<string>, joinAllRowsToOne: bool, width: nat,
                         showOpaque: (OpaqueKind, string) -> string, i: nat)
    requires i < |lines| && LinesConvert(rowOf, lines[..i]) && rowOf(lines[i]).Fail?
    ensures RowsOf(rowOf, lines, joinAllRowsToOne, width, showOpaque) == Fail(rowOf(lines[i]).error)
  {
    LineRowsFirstFailure(rowOf, lines, [], i);
  }

  /** joinAllRowsToOne with other than exactly one column is an IllegalStateException once the rows are read. */
  lemma JoinNeedsOneColumn(rowOf: string -> Result<seq<Value>>, lines: seq<string>, width: nat, showOpaque: (OpaqueKind, string) -> string)
    requires width != 1 && LinesConvert(rowOf, lines)
    ensures RowsOf(rowOf, lines, true, width, showOpaque) == Fail(IllegalState)
  {
    LineRowsOk(rowOf, lines, []);
  }

  /**
   * joinAllRowsToOne over one column: a single row whose one value is the
   * lines' values, rendered by String.valueOf in line order, joined by newlines.
   */
  lemma JoinedRows(rowOf: string -> Result<seq<Value>>, lines: seq<string>, showOpaque: (OpaqueKind, string) -> string)
    requires RowsWidth(rowOf, 1) && LinesConvert(rowOf, lines)
    ensures exists cells: seq<string> ::
        |cells| == |lines| &&
        (forall k :: 0 <= k < |lines| ==> |rowOf(lines[k]).value| == 1 && cells[k] == Show(rowOf(lines[k]).value[0], showOpaque)) &&
        RowsOf(rowOf, lines, true, 1, showOpaque) == Ok([[Str(Join(cells, "\n"))]])
  {
    LineRowsOk(rowOf, lines, []);
    LineRowsValues(rowOf, lines, []);
    var rows := LineRows(rowOf, lines, []).value;
    LineRowsWidth(rowOf, lines, 1);
    var cells := FirstCells(rows, showOpaque);
    assert forall k :: 0 <= k < |lines| ==> rowOf(lines[k]).value == rows[k];
  }

  /** Each content line's row is QueryRowMapper's row of the line's cells. */
  lemma LineRowIsMapToRow(columnTypes: seq<JdbcType>, delimiter: string, trimValues: bool, parses: QueryRowMapper.Parses, line: string)
    requires |delimiter| > 0
    ensures LineRow(columnTypes, delimiter, trimValues, parses)(line) ==
      QueryRowMapper.ConvertRow(columnTypes, ParseLine(line, delimiter, trimValues), parses)
  {
  }

  /** Flags default to false when their property is absent. */
  lemma FlagsDefault(r: SqlResultDescriptor)
    requires r.descriptor.section.properties == map[] && r.descriptor.baseProperties == map[]
    ensures !IsIgnoreOrder(r) && !IsIgnoreExcessRows(r) && !IsTrimValues(r.descriptor) && !IsJoinAllRowsToOne(r)
    ensures ColumnDelimiter(r.descriptor) == "|"
  {
  }

  lemma {:induction false} JoinAppend(parts: seq<string>, x: string, sep: string)
    requires |parts| >= 1
    ensures Join(parts + [x], sep) == Join(parts, sep) + sep + x
    decreases |parts|
  {
    if |parts| == 1 {
      assert (parts + [x])[1..] == [x];
    } else {
      assert (parts + [x])[1..] == parts[1..] + [x];
      JoinAppend(parts[1..], x, sep);
    }
  }

  /** String.trim keeps a last character above U+0020. */
  lemma JavaTrimKeepsEnd(s: string, c: char)
    requires c > ' '
    ensures EndsWith(JavaTrim(s + [c]), [c])
  {
    var t := s + [c];
    var left := TrimLeft(t, JavaSpace);
    assert t[|t| - 1] == c;
    TrimLeftKeepsLast(t, JavaSpace);
    assert left[|left| - 1] == c;
  }

  /** A line written with a trailing delimiter splits into its cells and one empty piece, and its trimmed form ends with the delimiter. */
  lemma TrailingSplit(cells: seq<string>, c: char)
    requires |cells| >= 1 && c > ' '
    requires forall k :: 0 <= k < |cells| ==> c !in cells[k]
    ensures SplitOn(Join(cells, [c]) + [c], [c]) == cells + [""]
    ensures EndsWith(JavaTrim(Join(cells, [c]) + [c]), [c])
  {
    TrailingPieces(cells, c);
    JavaTrimKeepsEnd(Join(cells, [c]), c);
  }

  lemma TrailingPieces(cells: seq<string>, c: char)
    requires |cells| >= 1
    requires forall k :: 0 <= k < |cells| ==> c !in cells[k]
    ensures SplitOn(Join(cells, [c]) + [c], [c]) == cells + [""]
  {
    var parts := cells + [""];
    JoinAppend(cells, "", [c]);
    assert Join(cells, [c]) + [c] + "" == Join(cells, [c]) + [c];
    forall k | 0 <= k < |parts| ensures c !in parts[k] {
      if k < |cells| {
        assert parts[k] == cells[k];
      }
    }
    SplitJoinChar(parts, c);
  }

  /** Trimming pieces that have no whitespace at either end changes nothing. */
  lemma TrimAllFixed(parts: seq<string>)
    requires forall k :: 0 <= k < |parts| ==> GuavaTrimmed(parts[k])
    ensures seq(|parts|, k requires 0 <= k < |parts| => GuavaTrim(parts[k])) == parts
  {
    forall k | 0 <= k < |parts| ensures GuavaTrim(parts[k]) == parts[k] {
      GuavaTrimFixed(parts[k]);
    }
  }

  /**
   * The row format round trip: cells without the delimiter character,
   * written with a trailing delimiter, are read back as they were (also with
   * trimValues, when no cell has whitespace at either end).
   */
  lemma ParseLineTrailing(cells: seq<string>, c: char, trimValues: bool)
    requires |cells| >= 1 && c > ' '
    requires forall k :: 0 <= k < |cells| ==> c !in cells[k]
    requires trimValues ==> forall k :: 0 <= k < |cells| ==> GuavaTrimmed(cells[k])
    ensures ParseLine(Join(cells, [c]) + [c], [c], trimValues) == cells
  {
    TrailingSplit(cells, c);
    if trimValues {
      EmptyPieceTrimmed(cells);
    }
    ParseLineEndingWith(Join(cells, [c]) + [c], [c], trimValues, cells + [""]);
    assert (cells + [""])[..|cells|] == cells;
  }

  lemma EmptyPieceTrimmed(cells: seq<string>)
    requires forall k :: 0 <= k < |cells| ==> GuavaTrimmed(cells[k])
    ensures forall k :: 0 <= k < |cells + [""]| ==> GuavaTrimmed((cells + [""])[k])
  {
    var parts := cells + [""];
    forall k | 0 <= k < |parts| ensures GuavaTrimmed(parts[k]) {
      if k < |cells| {
        assert parts[k] == cells[k];
      } else {
        assert parts[k] == "";
      }
    }
  }

  /** A line whose trimmed form ends with the delimiter loses its last piece, and trimming clean pieces keeps them. */
  lemma ParseLineEndingWith(line: string, delimiter: string, trimValues: bool, pieces: seq<string>)
    requires |delimiter| > 0 && SplitOn(line, delimiter) == pieces && EndsWith(JavaTrim(line), delimiter)
    requires trimValues ==> forall k :: 0 <= k < |pieces| ==> GuavaTrimmed(pieces[k])
    ensures ParseLine(line, delimiter, trimValues) == pieces[..|pieces| - 1]
  {
    if trimValues {
      TrimAllFixed(pieces);
    }
  }

  function Names(types: seq<JdbcType>): (names: seq<string>)
    ensures |names| == |types| && forall k :: 0 <= k < |types| ==> names[k] == Name(types[k])
  {
    seq(|types|, k requires 0 <= k < |types| => Name(types[k]))
  }

  /** valueOf reads back every constant's name. */
  lemma ValueOfName(t: JdbcType)
    ensures ValueOf(Name(t)) == Some(t)
  {
    var r := ValueOf(Name(t));
    assert r.Some?;
    NameInjective(r.value, t);
  }

  /** Reading the names of types gives the types back. */
  lemma {:induction false} TypesOfNames(types: seq<JdbcType>)
    ensures TypesOf(Names(types)) == Ok(types)
  {
    var names := Names(types);
    if types != [] {
      ValueOfName(types[0]);
      TypesOfNames(types[1..]);
      assert names[1..] == Names(types[1..]);
      assert ValueOf(names[0]) == Some(types[0]);
      assert TypesOf(names[1..]) == Ok(types[1..]);
      assert [types[0]] + types[1..] == types;
    } else {
      assert names == [];
    }
  }

  /** The "types" header round trip: the type names joined by '|' read back as the types. */
  lemma TypesRoundTrip(types: seq<JdbcType>)
    requires |types| >= 1
    ensures TypesOf(SplitOn(Join(Names(types), "|"), "|")) == Ok(types)
  {
    var names := Names(types);
    forall k | 0 <= k < |names| ensures '|' !in names[k] {
      NameHasNoBar(types[k]);
    }
    SplitJoinChar(names, '|');
    TypesOfNames(types);
  }
}
