/**
 * The older QueryRowMapper (com.teradata): the same cell conversion with
 * three differences. Binary columns and BOOLEAN go through Boolean.valueOf,
 * which never fails; every integer type becomes a Long; timestamps are read
 * as UTC.
 */
module LegacyQueryRowMapper {
  import opened Wrappers
  import opened Strings
  import opened JdbcTypes
  import opened Values
  import QueryRowMapper

  type Parses = QueryRowMapper.Parses

  /**
   * convertValue. The oracle's TimestampValue stands for
   * DateTimeUtils.parseTimestampInUTC here.
   */
  function ConvertValue(value: string, expectedType: JdbcType, parses: Parses): (r: Result<Value>)
    ensures r == Ok(Null) <==> value == QueryRowMapper.NULL_STRING
    ensures r.Fail? ==> r.error == IllegalArgument
  {
    if value == QueryRowMapper.NULL_STRING then Ok(Null) else ConvertNonNull(value, expectedType, parses)
  }

  function ConvertNonNull(value: string, expectedType: JdbcType, parses: Parses): (r: Result<Value>)
    ensures r.Ok? ==> r.value != Null
    ensures r.Fail? ==> r.error == IllegalArgument
  {
    if QueryRowMapper.IsStringType(expectedType) then Ok(Str(value))
    else match expectedType
      case BINARY => Ok(Bool(BooleanValueOf(value)))
      case BOOLEAN => Ok(Bool(BooleanValueOf(value)))
      case VARBINARY => Ok(Bool(BooleanValueOf(value)))
      case LONGVARBINARY => Ok(Bool(BooleanValueOf(value)))
      case BIT => (match QueryRowMapper.ConvertBit(value) case Ok(b) => Ok(Bool(b)) case Fail(e) => Fail(e))
      case TINYINT => LongValueOf(value)
      case SMALLINT => LongValueOf(value)
      case INTEGER => LongValueOf(value)
      case BIGINT => LongValueOf(value)
      case REAL => QueryRowMapper.ParseOpaque(DoubleValue, value, parses)
      case FLOAT => QueryRowMapper.ParseOpaque(DoubleValue, value, parses)
      case DOUBLE => QueryRowMapper.ParseOpaque(DoubleValue, value, parses)
      case DECIMAL => QueryRowMapper.ParseOpaque(BigDecimalValue, value, parses)
      case NUMERIC => QueryRowMapper.ParseOpaque(BigDecimalValue, value, parses)
      case DATE => QueryRowMapper.ParseOpaque(DateValue, value, parses)
      case TIME => QueryRowMapper.ParseOpaque(TimeValue, value, parses)
      case TIME_WITH_TIMEZONE => QueryRowMapper.ParseOpaque(TimeValue, value, parses)
      case TIMESTAMP => QueryRowMapper.ParseOpaque(TimestampValue, value, parses)
      case TIMESTAMP_WITH_TIMEZONE => QueryRowMapper.ParseOpaque(TimestampValue, value, parses)
      case _ => Fail(IllegalArgument)
  }

  function LongValueOf(value: string): Result<Value>
  {
    match ParseLong(value)
    case Some(n) => Ok(Long(n))
    case None => Fail(IllegalArgument)
  }

  /** mapToRow: as in the newer mapper, over this mapper's conversion. */
  method MapToRow(columnTypes: seq<JdbcType>, values: seq<string>, parses: Parses) returns (r: Result<seq<Value>>)
    ensures |values| != |columnTypes| ==> r == Fail(IllegalState)
    ensures |values| == |columnTypes| ==>
      (r.Ok? <==> forall i :: 0 <= i < |values| ==> ConvertValue(values[i], columnTypes[i], parses).Ok?)
    ensures |values| == |columnTypes| && r.Fail? ==> r.error == IllegalArgument
    ensures r.Ok? ==> |r.value| == |values|
    ensures r.Ok? ==> forall i :: 0 <= i < |values| ==> ConvertValue(values[i], columnTypes[i], parses) == Ok(r.value[i])
  {
    if |values| != |columnTypes| {
      return Fail(IllegalState);
    }
    var rowValues := new Value[|values|];
    for i := 0 to |values|
      invariant forall j :: 0 <= j < i ==> ConvertValue(values[j], columnTypes[j], parses) == Ok(rowValues[j])
    {
      var converted := ConvertValue(values[i], columnTypes[i], parses);
      if converted.Fail? {
        return Fail(IllegalArgument);
      }
      rowValues[i] := converted.value;
    }
    return Ok(rowValues[..]);
  }

  // ---------------------------------------------------------------------
  // Lemmas

  /**
   * Binary columns never fail and never hold bytes: a hex cell such as "0AFF"
   * becomes Boolean false, where the newer mapper reads the bytes 0x0A 0xFF.
   */
  lemma BinaryAsBoolean(value: string, t: JdbcType, parses: Parses)
    requires QueryRowMapper.IsBinaryType(t) && value != QueryRowMapper.NULL_STRING
    ensures ConvertValue(value, t, parses) == Ok(Bool(EqualsIgnoreCase(value, "true")))
  {
  }

  /**
   * Every hex rendering of a byte string, in a binary column, is Boolean false
   * here and the bytes themselves in the newer mapper.
   */
  lemma BinaryHexCells(bytes: seq<int>, t: JdbcType, parses: Parses)
    requires QueryRowMapper.IsBinaryType(t)
    requires forall i :: 0 <= i < |bytes| ==> 0 <= bytes[i] < 256
    ensures ConvertValue(PrintHexBinary(bytes), t, parses) == Ok(Bool(false))
    ensures QueryRowMapper.ConvertValue(PrintHexBinary(bytes), t, parses) == Ok(Bytes(bytes))
  {
    assert QueryRowMapper.ConvertValue(PrintHexBinary(bytes), t, parses) == Ok(Bytes(bytes)) by {
      QueryRowMapper.BinaryColumns(bytes, t, parses);
    }
    assert ConvertValue(PrintHexBinary(bytes), t, parses) == Ok(Bool(false)) by {
      HexIsNotTrue(bytes);
      BinaryAsBoolean(PrintHexBinary(bytes), t, parses);
    }
  }

  lemma HexIsNotTrue(bytes: seq<int>)
    requires forall i :: 0 <= i < |bytes| ==> 0 <= bytes[i] < 256
    ensures !EqualsIgnoreCase(PrintHexBinary(bytes), "true")
    ensures PrintHexBinary(bytes) != QueryRowMapper.NULL_STRING
  {
    var cell := PrintHexBinary(bytes);
    QueryRowMapper.HexIsNotNullLiteral(bytes);
    if cell != [] {
      PrintHexBinaryChars(bytes, 0);
      assert LowerChar(cell[0]) != LowerChar("true"[0]);
      FirstLowerDiffers(cell, "true");
    }
  }

  /** BOOLEAN accepts everything: the value is true exactly for "true" in any case. */
  lemma BooleanNeverFails(value: string, parses: Parses)
    requires value != QueryRowMapper.NULL_STRING
    ensures ConvertValue(value, BOOLEAN, parses).Ok?
    ensures ConvertValue(value, BOOLEAN, parses) == Ok(Bool(true)) <==> EqualsIgnoreCase(value, "true")
  {
  }

  /** Every integer column type reads back the rendering of every 64-bit value as a Long. */
  lemma IntegerColumnsAsLong(n: int, t: JdbcType, parses: Parses)
    requires t == TINYINT || t == SMALLINT || t == INTEGER || t == BIGINT
    ensures ConvertValue(IntToString(n), t, parses) ==
      if LONG_MIN <= n <= LONG_MAX then Ok(Long(n)) else Fail(IllegalArgument)
  {
    ParseSignedToString(n, LONG_MIN, LONG_MAX);
    QueryRowMapper.NotNullLiteral(n);
  }

  /** The two mappers agree on text, BIT and every type read through an oracle. */
  lemma AgreesWithNewer(value: string, t: JdbcType, parses: Parses)
    requires !QueryRowMapper.IsBinaryType(t)
    requires t !in {BOOLEAN, TINYINT, SMALLINT, INTEGER, BIGINT}
    ensures ConvertValue(value, t, parses) == QueryRowMapper.ConvertValue(value, t, parses)
  {
  }
}
