/**
 * QueryRowMapper: turns the textual cells of a convention result file into
 * Java values according to the declared JDBC column types. The literal
 * "null" is SQL NULL whatever the column type.
 */
module QueryRowMapper {
  import opened Wrappers
  import opened Strings
  import opened JdbcTypes
  import opened Values

  const NULL_STRING: string := "null"

  /**
   * Whether Double.valueOf, new BigDecimal, Date.valueOf, Time.valueOf or
   * Timestamp.valueOf (by the kind) accepts the text; those parsers are not
   * part of this model.
   */
  type Parses = (OpaqueKind, string) -> bool

  predicate IsStringType(t: JdbcType)
  {
    t == CHAR || t == VARCHAR || t == LONGVARCHAR || t == LONGNVARCHAR
  }

  predicate IsBinaryType(t: JdbcType)
  {
    t == BINARY || t == VARBINARY || t == LONGVARBINARY
  }

  /** convertBoolean: "true" or "false" in any case; anything else is unsupported. */
  function ConvertBoolean(value: string): (r: Result<bool>)
    ensures r.Ok? <==> EqualsIgnoreCase(value, "true") || EqualsIgnoreCase(value, "false")
    ensures r.Ok? ==> (r.value <==> EqualsIgnoreCase(value, "true"))
    ensures r.Fail? ==> r.error == IllegalArgument
  {
    if EqualsIgnoreCase(value, "true") then Ok(true)
    else if EqualsIgnoreCase(value, "false") then Ok(false)
    else Fail(IllegalArgument)
  }

  /** convertBit: exactly "0" or "1". */
  function ConvertBit(value: string): (r: Result<bool>)
    ensures r.Ok? <==> value == "0" || value == "1"
    ensures r.Ok? ==> (r.value <==> value == "1")
    ensures r.Fail? ==> r.error == IllegalArgument
  {
    if value == "0" then Ok(false)
    else if value == "1" then Ok(true)
    else Fail(IllegalArgument)
  }

  function FromOption<T>(o: Option<T>): (r: Result<T>)
    ensures r.Ok? <==> o.Some?
    ensures r.Ok? ==> r.value == o.value
    ensures r.Fail? ==> r.error == IllegalArgument
  {
    match o
    case Some(v) => Ok(v)
    case None => Fail(IllegalArgument)
  }

  function ParseOpaque(kind: OpaqueKind, value: string, parses: Parses): Result<Value>
  {
    if parses(kind, value) then Ok(Opaque(kind, value)) else Fail(IllegalArgument)
  }

  /**
   * convertValue. Every failure (NumberFormatException, a bad hex string, a
   * rejected literal, an unsupported type) is an IllegalArgumentException.
   */
  function ConvertValue(value: string, expectedType: JdbcType, parses: Parses): (r: Result<Value>)
    ensures r == Ok(Null) <==> value == NULL_STRING
    ensures r.Fail? ==> r.error == IllegalArgument
  {
    if value == NULL_STRING then Ok(Null) else ConvertNonNull(value, expectedType, parses)
  }

  /** The switch on the column type, for a cell that is not the NULL literal. */
  function ConvertNonNull(value: string, expectedType: JdbcType, parses: Parses): (r: Result<Value>)
    ensures r.Ok? ==> r.value != Null
    ensures r.Fail? ==> r.error == IllegalArgument
  {
    if IsStringType(expectedType) then Ok(Str(value))
    else if IsBinaryType(expectedType) then
      (match ParseHexBinary(value)
       case Some(bytes) => Ok(Bytes(bytes))
       case None => Fail(IllegalArgument))
    else match expectedType
      case BOOLEAN => (match ConvertBoolean(value) case Ok(b) => Ok(Bool(b)) case Fail(e) => Fail(e))
      case BIT => (match ConvertBit(value) case Ok(b) => Ok(Bool(b)) case Fail(e) => Fail(e))
      case TINYINT => (match FromOption(ParseInteger(value)) case Ok(n) => Ok(Int(n)) case Fail(e) => Fail(e))
      case SMALLINT => (match FromOption(ParseInteger(value)) case Ok(n) => Ok(Int(n)) case Fail(e) => Fail(e))
      case INTEGER => (match FromOption(ParseInteger(value)) case Ok(n) => Ok(Int(n)) case Fail(e) => Fail(e))
      case BIGINT => (match FromOption(ParseLong(value)) case Ok(n) => Ok(Long(n)) case Fail(e) => Fail(e))
      case REAL => ParseOpaque(DoubleValue, value, parses)
      case FLOAT => ParseOpaque(DoubleValue, value, parses)
      case DOUBLE => ParseOpaque(DoubleValue, value, parses)
      case DECIMAL => ParseOpaque(BigDecimalValue, value, parses)
      case NUMERIC => ParseOpaque(BigDecimalValue, value, parses)
      case DATE => ParseOpaque(DateValue, value, parses)
      case TIME => ParseOpaque(TimeValue, value, parses)
      case TIME_WITH_TIMEZONE => ParseOpaque(TimeValue, value, parses)
      case TIMESTAMP => ParseOpaque(TimestampValue, value, parses)
      case TIMESTAMP_WITH_TIMEZONE => ParseOpaque(TimestampValue, value, parses)
      case _ => Fail(IllegalArgument)
  }

  /**
   * mapToRow: one value per column type, or an IllegalStateException; the
   * cells are converted into an array, position by position.
   */
  method MapToRow(columnTypes: seq<JdbcType>, values: seq<string>, parses: Parses) returns (r: Result<seq<Value>>)
    ensures |values| != |columnTypes| ==> r == Fail(IllegalState)
    ensures |values| == |columnTypes| ==>
      (r.Ok? <==> forall i :: 0 <= i < |values| ==> ConvertValue(values[i], columnTypes[i], parses).Ok?)
    ensures |values| == |columnTypes| && r.Fail? ==> r.error == IllegalArgument
    ensures r.Ok? ==> |r.value| == |values|
    ensures r.Ok? ==> forall i :: 0 <= i < |values| ==> ConvertValue(values[i], columnTypes[i], parses) == Ok(r.value[i])
    ensures r == ConvertRow(columnTypes, values, parses)
  {
    if |values| != |columnTypes| {
      return Fail(IllegalState);
    }
    var rowValues := new Value[|values|];
    for i := 0 to |values|
      invariant forall j :: 0 <= j < i ==> ConvertValue(values[j], columnTypes[j], parses) == Ok(rowValues[j])
    {
      var converted := ConvertValue(values[i], columnTypes[i], parses);
      if converted.Fail? {
        ConvertRowFails(columnTypes, values, parses, i);
        return Fail(IllegalArgument);
      }
      rowValues[i] := converted.value;
    }
    ConvertRowOf(columnTypes, values, parses, rowValues[..]);
    return Ok(rowValues[..]);
  }

  /** One cell that does not convert fails the row with an IllegalArgumentException. */
  lemma ConvertRowFails(columnTypes: seq<JdbcType>, values: seq<string>, parses: Parses, i: nat)
    requires |values| == |columnTypes| && i < |values|
    requires ConvertValue(values[i], columnTypes[i], parses).Fail?
    ensures ConvertRow(columnTypes, values, parses) == Fail(IllegalArgument)
  {
    ConvertRowSpec(columnTypes, values, parses);
  }

  /** A row whose every cell is its cell's conversion is the row. */
  lemma ConvertRowOf(columnTypes: seq<JdbcType>, values: seq<string>, parses: Parses, row: seq<Value>)
    requires |values| == |columnTypes| == |row|
    requires forall j :: 0 <= j < |values| ==> ConvertValue(values[j], columnTypes[j], parses) == Ok(row[j])
    ensures ConvertRow(columnTypes, values, parses) == Ok(row)
  {
    ConvertRowSpec(columnTypes, values, parses);
    var converted := ConvertRow(columnTypes, values, parses).value;
    assert forall j :: 0 <= j < |values| ==> Ok(converted[j]) == Ok(row[j]);
    assert forall j :: 0 <= j < |values| ==> converted[j] == row[j];
    assert converted == row;
  }

  /** mapToRow as a function: the row, or the first failure. */
  function ConvertRow(columnTypes: seq<JdbcType>, values: seq<string>, parses: Parses): Result<seq<Value>>
  {
    if |values| != |columnTypes| then Fail(IllegalState) else ConvertCells(columnTypes, values, parses)
  }

  function ConvertCells(columnTypes: seq<JdbcType>, values: seq<string>, parses: Parses): (r: Result<seq<Value>>)
    requires |values| == |columnTypes|
    decreases |values|
  {
    if values == [] then Ok([])
    else match ConvertValue(values[0], columnTypes[0], parses)
      case Fail(e) => Fail(e)
      case Ok(v) =>
        match ConvertCells(columnTypes[1..], values[1..], parses)
        case Fail(e) => Fail(e)
        case Ok(rest) => Ok([v] + rest)
  }

  // ---------------------------------------------------------------------
  // Lemmas

  /**
   * The row function, stated cell by cell: a size mismatch is an
   * IllegalStateException; otherwise the row exists exactly when every cell
   * converts, and then holds the converted cells in order.
   */
  lemma ConvertRowSpec(columnTypes: seq<JdbcType>, values: seq<string>, parses: Parses)
    ensures |values| != |columnTypes| ==> ConvertRow(columnTypes, values, parses) == Fail(IllegalState)
    ensures |values| == |columnTypes| ==>
      (ConvertRow(columnTypes, values, parses).Ok? <==> forall i :: 0 <= i < |values| ==> ConvertValue(values[i], columnTypes[i], parses).Ok?)
    ensures |values| == |columnTypes| && ConvertRow(columnTypes, values, parses).Fail? ==>
      ConvertRow(columnTypes, values, parses).error == IllegalArgument
    ensures ConvertRow(columnTypes, values, parses).Ok? ==> |ConvertRow(columnTypes, values, parses).value| == |values|
    ensures ConvertRow(columnTypes, values, parses).Ok? ==> forall i :: 0 <= i < |values| ==>
      ConvertValue(values[i], columnTypes[i], parses) == Ok(ConvertRow(columnTypes, values, parses).value[i])
  {
    if |values| == |columnTypes| {
      ConvertCellsSpec(columnTypes, values, parses);
    }
  }

  /** A row, when there is one, has one value per column type. */
  lemma ConvertRowWidth(columnTypes: seq<JdbcType>, values: seq<string>, parses: Parses)
    ensures ConvertRow(columnTypes, values, parses).Ok? ==> |ConvertRow(columnTypes, values, parses).value| == |columnTypes|
  {
    ConvertRowSpec(columnTypes, values, parses);
  }

  lemma {:induction false} ConvertCellsSpec(columnTypes: seq<JdbcType>, values: seq<string>, parses: Parses)
    requires |values| == |columnTypes|
    ensures ConvertCells(columnTypes, values, parses).Ok? <==> forall i :: 0 <= i < |values| ==> ConvertValue(values[i], columnTypes[i], parses).Ok?
    ensures ConvertCells(columnTypes, values, parses).Fail? ==> ConvertCells(columnTypes, values, parses).error == IllegalArgument
    ensures ConvertCells(columnTypes, values, parses).Ok? ==> |ConvertCells(columnTypes, values, parses).value| == |values|
    ensures ConvertCells(columnTypes, values, parses).Ok? ==> forall i :: 0 <= i < |values| ==>
      ConvertValue(values[i], columnTypes[i], parses) == Ok(ConvertCells(columnTypes, values, parses).value[i])
    decreases |values|
  {
    if values != [] {
      var ts, vs := columnTypes[1..], values[1..];
      ConvertCellsSpec(ts, vs, parses);
      assert forall i :: 0 < i < |values| ==> values[i] == vs[i - 1] && columnTypes[i] == ts[i - 1];
    }
  }

  /** Text columns keep the text as it is, except the NULL literal. */
  lemma StringColumns(value: string, t: JdbcType, parses: Parses)
    requires IsStringType(t) && value != NULL_STRING
    ensures ConvertValue(value, t, parses) == Ok(Str(value))
  {
  }

  /** NCHAR and NVARCHAR are not among the text types: any non-null cell is rejected. */
  lemma NationalCharColumns(value: string, parses: Parses)
    requires value != NULL_STRING
    ensures ConvertValue(value, NCHAR, parses) == Fail(IllegalArgument)
    ensures ConvertValue(value, NVARCHAR, parses) == Fail(IllegalArgument)
  {
  }

  /**
   * Integer columns read back the decimal rendering of every 32-bit value and
   * reject every value outside that range.
   */
  lemma IntegerColumns(n: int, t: JdbcType, parses: Parses)
    requires t == TINYINT || t == SMALLINT || t == INTEGER
    ensures ConvertValue(IntToString(n), t, parses) ==
      if INTEGER_MIN <= n <= INTEGER_MAX then Ok(Int(n)) else Fail(IllegalArgument)
  {
    ParseSignedToString(n, INTEGER_MIN, INTEGER_MAX);
    NotNullLiteral(n);
  }

  /** BIGINT columns do the same for the 64-bit range. */
  lemma BigintColumns(n: int, parses: Parses)
    ensures ConvertValue(IntToString(n), BIGINT, parses) ==
      if LONG_MIN <= n <= LONG_MAX then Ok(Long(n)) else Fail(IllegalArgument)
  {
    ParseSignedToString(n, LONG_MIN, LONG_MAX);
    NotNullLiteral(n);
  }

  lemma NotNullLiteral(n: int)
    ensures IntToString(n) != NULL_STRING
  {
    var s := IntToString(n);
    if n < 0 {
      assert s[0] == '-';
    } else {
      NatToStringDigits(n);
      assert IsDigit(s[0]);
    }
  }

  /** Binary columns read back the hex rendering of any byte string. */
  lemma BinaryColumns(bytes: seq<int>, t: JdbcType, parses: Parses)
    requires IsBinaryType(t)
    requires forall i :: 0 <= i < |bytes| ==> 0 <= bytes[i] < 256
    ensures ConvertValue(PrintHexBinary(bytes), t, parses) == Ok(Bytes(bytes))
  {
    var text := PrintHexBinary(bytes);
    ParsePrintHexBinary(bytes);
    HexIsNotNullLiteral(bytes);
    BinaryCell(text, t, parses);
  }

  /** A binary cell is parsed as hex. */
  lemma BinaryCell(value: string, t: JdbcType, parses: Parses)
    requires IsBinaryType(t) && value != NULL_STRING
    ensures ConvertValue(value, t, parses) ==
      match ParseHexBinary(value) case Some(b) => Ok(Bytes(b)) case None => Fail(IllegalArgument)
  {
  }

  /** No hex rendering is the NULL literal: 'n' is not a hex digit. */
  lemma HexIsNotNullLiteral(bytes: seq<int>)
    requires forall i :: 0 <= i < |bytes| ==> 0 <= bytes[i] < 256
    ensures PrintHexBinary(bytes) != NULL_STRING
  {
    if |PrintHexBinary(bytes)| == |NULL_STRING| {
      PrintHexBinaryChars(bytes, 0);
    }
  }

  /** BOOLEAN columns accept true/false in any case and nothing else; BIT only 0 and 1. */
  lemma BooleanColumns(value: string, parses: Parses)
    requires value != NULL_STRING
    ensures ConvertValue(value, BOOLEAN, parses).Ok? <==> EqualsIgnoreCase(value, "true") || EqualsIgnoreCase(value, "false")
    ensures ConvertValue(value, BOOLEAN, parses) == Ok(Bool(true)) <==> EqualsIgnoreCase(value, "true")
    ensures ConvertValue(value, BIT, parses).Ok? <==> value == "0" || value == "1"
    ensures ConvertValue(value, BIT, parses) == Ok(Bool(true)) <==> value == "1"
  {
  }

  /** Columns of the types without a conversion reject every non-null cell. */
  lemma UnsupportedColumns(value: string, t: JdbcType, parses: Parses)
    requires value != NULL_STRING
    requires t in {NULL, OTHER, JAVA_OBJECT, DISTINCT, STRUCT, ARRAY, BLOB, CLOB, REF, DATALINK, ROWID, NCHAR, NVARCHAR, NCLOB, SQLXML, REF_CURSOR}
    ensures ConvertValue(value, t, parses) == Fail(IllegalArgument)
  {
  }
}
