/**
 * QueryResultValueComparator: compares an actual query result value with an
 * expected one, for the JDBC type of their column. It is meant for equality
 * only: 0 means equal; a value of the wrong Java class compares as -1.
 */
module ValueComparator {
  import opened Wrappers
  import opened JdbcTypes
  import opened Values

  /**
   * What the model does not compute itself: compareTo on BigDecimal, Date,
   * Time and Timestamp values of one kind, and DoubleMath.fuzzyCompare of two
   * floating-point values under the configured tolerance.
   */
  datatype Oracles = Oracles(
    compareOpaque: (OpaqueKind, string, string) -> int,
    fuzzyCompare: (OpaqueKind, string, OpaqueKind, string) -> int)

  /** Java's compareTo on int and long values. */
  function CompareNumbers(x: int, y: int): (r: int)
    ensures r == 0 <==> x == y
    ensures r < 0 <==> x < y
  {
    if x < y then -1 else if x == y then 0 else 1
  }

  /** Boolean.compareTo: false orders before true. */
  function CompareBooleans(x: bool, y: bool): (r: int)
    ensures r == 0 <==> x == y
  {
    if x == y then 0 else if x then 1 else -1
  }

  /**
   * The lexicographic comparison shared by String.compareTo (over char
   * codes) and UnsignedBytes.lexicographicalComparator (over unsigned byte
   * values): the difference at the first position where they differ, or
   * the difference of the lengths.
   */
  function Lexicographic(a: seq<int>, b: seq<int>): int
  {
    if a == [] || b == [] then |a| - |b|
    else if a[0] != b[0] then a[0] - b[0]
    else Lexicographic(a[1..], b[1..])
  }

  function Codes(s: string): (r: seq<int>)
    ensures |r| == |s| && forall i :: 0 <= i < |s| ==> r[i] == s[i] as int
  {
    seq(|s|, i requires 0 <= i < |s| => s[i] as int)
  }

  predicate IsIntegerOrNarrower(v: Value)
  {
    v.Int? || v.Short? || v.Byte?
  }

  predicate IsLongOrNarrower(v: Value)
  {
    v.Long? || IsIntegerOrNarrower(v)
  }

  predicate IsFloatingPointValue(v: Value)
  {
    v.Opaque? && (v.kind == FloatValue || v.kind == DoubleValue)
  }

  /** bigDecimalEqual, dateEqual, timeEqual, timestampEqual: both of the class, then compareTo. */
  function CompareKind(kind: OpaqueKind, actual: Value, expected: Value, o: Oracles): int
  {
    if actual.Opaque? && actual.kind == kind && expected.Opaque? && expected.kind == kind
    then o.compareOpaque(kind, actual.text, expected.text)
    else -1
  }

  /**
   * compare(actual, expected) of the comparator for the column type t; an
   * unsupported type is a RuntimeException (Unsupported).
   */
  function Compare(t: JdbcType, actual: Value, expected: Value, o: Oracles): (r: Result<int>)
    ensures r.Fail? ==> r.error == Unsupported
    decreases actual, 2
  {
    if actual == Null && expected == Null then Ok(0)
    else if (actual == Null) != (expected == Null) then Ok(-1)
    else CompareNonNull(t, actual, expected, o)
  }

  /** The comparator chosen by the column type, for two non-null values. */
  function CompareNonNull(t: JdbcType, actual: Value, expected: Value, o: Oracles): (r: Result<int>)
    ensures r.Fail? ==> r.error == Unsupported
    decreases actual, 1
  {
    match t
      case CHAR => Ok(StringsEqual(actual, expected))
      case VARCHAR => Ok(StringsEqual(actual, expected))
      case LONGVARCHAR => Ok(StringsEqual(actual, expected))
      case LONGNVARCHAR => Ok(StringsEqual(actual, expected))
      case BINARY => Ok(BinaryEqual(actual, expected))
      case VARBINARY => Ok(BinaryEqual(actual, expected))
      case LONGVARBINARY => Ok(BinaryEqual(actual, expected))
      case BIT => Ok(BooleanEqual(actual, expected))
      case BOOLEAN => Ok(BooleanEqual(actual, expected))
      case TINYINT => Ok(IntegerEqual(actual, expected))
      case SMALLINT => Ok(IntegerEqual(actual, expected))
      case INTEGER => Ok(IntegerEqual(actual, expected))
      case BIGINT => Ok(LongEqual(actual, expected))
      case REAL => Ok(FloatingEqual(actual, expected, o))
      case FLOAT => Ok(FloatingEqual(actual, expected, o))
      case DOUBLE => Ok(FloatingEqual(actual, expected, o))
      case DECIMAL => Ok(CompareKind(BigDecimalValue, actual, expected, o))
      case NUMERIC => Ok(CompareKind(BigDecimalValue, actual, expected, o))
      case DATE => Ok(CompareKind(DateValue, actual, expected, o))
      case TIME => Ok(CompareKind(TimeValue, actual, expected, o))
      case TIME_WITH_TIMEZONE => Ok(CompareKind(TimeValue, actual, expected, o))
      case TIMESTAMP => Ok(CompareKind(TimestampValue, actual, expected, o))
      case TIMESTAMP_WITH_TIMEZONE => Ok(CompareKind(TimestampValue, actual, expected, o))
      case ARRAY => ArrayCompare(actual, expected, o)
      case _ => Fail(Unsupported)
  }

  function StringsEqual(actual: Value, expected: Value): int
  {
    if actual.Str? && expected.Str? then Lexicographic(Codes(actual.s), Codes(expected.s)) else -1
  }

  function BinaryEqual(actual: Value, expected: Value): int
  {
    if actual.Bytes? && expected.Bytes? then Lexicographic(actual.bytes, expected.bytes) else -1
  }

  function BooleanEqual(actual: Value, expected: Value): int
  {
    if actual.Bool? && expected.Bool? then CompareBooleans(actual.b, expected.b) else -1
  }

  function IntegerEqual(actual: Value, expected: Value): int
  {
    if IsIntegerOrNarrower(actual) && IsIntegerOrNarrower(expected) then CompareNumbers(actual.i, expected.i) else -1
  }

  function LongEqual(actual: Value, expected: Value): int
  {
    if IsLongOrNarrower(actual) && IsLongOrNarrower(expected) then CompareNumbers(actual.i, expected.i) else -1
  }

  function FloatingEqual(actual: Value, expected: Value, o: Oracles): int
  {
    if IsFloatingPointValue(actual) && IsFloatingPointValue(expected)
    then o.fuzzyCompare(actual.kind, actual.text, expected.kind, expected.text)
    else -1
  }

  /**
   * arrayEqual: a java.sql.Array against a List of the same size, element
   * by element with the comparator of the array's base type; the first
   * non-zero result decides.
   */
  function ArrayCompare(actual: Value, expected: Value, o: Oracles): (r: Result<int>)
    ensures r.Fail? ==> r.error == Unsupported
    decreases actual, 0
  {
    if !(actual.SqlArray? && expected.List?) then Ok(-1)
    else if |actual.elements| != |expected.elements| then Ok(-1)
    else ElementsCompare(actual, expected.elements, 0, o)
  }

  function ElementsCompare(actual: Value, expected: seq<Value>, i: nat, o: Oracles): (r: Result<int>)
    requires actual.SqlArray? && |actual.elements| == |expected| && i <= |expected|
    ensures r.Fail? ==> r.error == Unsupported
    decreases actual, 0, |expected| - i
  {
    if i == |expected| then Ok(0)
    else match Compare(actual.baseType, actual.elements[i], expected[i], o)
      case Fail(e) => Fail(e)
      case Ok(c) => if c != 0 then Ok(c) else ElementsCompare(actual, expected, i + 1, o)
  }

  /** arrayEqual as the loop it is, against its specification. */
  method ArrayEqual(actual: Value, expected: Value, o: Oracles) returns (r: Result<int>)
    ensures r == ArrayCompare(actual, expected, o)
  {
    if !(actual.SqlArray? && expected.List?) {
      return Ok(-1);
    }
    var actualList := actual.elements;
    var expectedList := expected.elements;
    if |actualList| != |expectedList| {
      return Ok(-1);
    }
    var i := 0;
    while i < |actualList|
      invariant 0 <= i <= |actualList|
      invariant ElementsCompare(actual, expectedList, 0, o) == ElementsCompare(actual, expectedList, i, o)
    {
      var compareResult := Compare(actual.baseType, actualList[i], expectedList[i], o);
      if compareResult.Fail? || compareResult.value != 0 {
        return compareResult;
      }
      i := i + 1;
    }
    return Ok(0);
  }

  // ---------------------------------------------------------------------
  // Lemmas

  /** Two nulls are equal and a null never equals a value, for every column type. */
  lemma CompareNulls(t: JdbcType, v: Value, o: Oracles)
    requires v != Null
    ensures Compare(t, Null, Null, o) == Ok(0)
    ensures Compare(t, Null, v, o) == Ok(-1) && Compare(t, v, Null, o) == Ok(-1)
  {
  }

  /** The column types the comparator handles. */
  predicate Supported(t: JdbcType)
  {
    t in {CHAR, VARCHAR, LONGVARCHAR, LONGNVARCHAR, BINARY, VARBINARY, LONGVARBINARY, BIT, BOOLEAN,
          TINYINT, SMALLINT, INTEGER, BIGINT, REAL, FLOAT, DOUBLE, DECIMAL, NUMERIC, DATE, TIME,
          TIME_WITH_TIMEZONE, TIMESTAMP, TIMESTAMP_WITH_TIMEZONE, ARRAY}
  }

  /**
   * Two non-null values of a column type outside the supported ones are a
   * RuntimeException; apart from arrays (whose elements may be of an
   * unsupported base type), a supported type never is.
   */
  lemma CompareUnsupported(t: JdbcType, actual: Value, expected: Value, o: Oracles)
    requires actual != Null && expected != Null && t != ARRAY
    ensures !Supported(t) <==> Compare(t, actual, expected, o) == Fail(Unsupported)
  {
  }

  lemma {:induction false} LexicographicZero(a: seq<int>, b: seq<int>)
    ensures Lexicographic(a, b) == 0 <==> a == b
  {
    if a != [] && b != [] && a[0] == b[0] {
      LexicographicZero(a[1..], b[1..]);
      if a[1..] == b[1..] {
        assert a == [a[0]] + a[1..] && b == [b[0]] + b[1..];
      }
    }
  }

  /** Swapping the arguments negates the result. */
  lemma {:induction false} LexicographicAntisymmetric(a: seq<int>, b: seq<int>)
    ensures Lexicographic(a, b) == -Lexicographic(b, a)
  {
    if a != [] && b != [] && a[0] == b[0] {
      LexicographicAntisymmetric(a[1..], b[1..]);
    }
  }

  lemma CodesInjective(a: string, b: string)
    ensures Codes(a) == Codes(b) <==> a == b
  {
    if Codes(a) == Codes(b) {
      assert forall i :: 0 <= i < |a| ==> a[i] as int == b[i] as int;
    }
  }

  /** Text columns: equal exactly for equal strings, and the order flips with the arguments. */
  lemma StringColumns(t: JdbcType, a: string, b: string, o: Oracles)
    requires t in {CHAR, VARCHAR, LONGVARCHAR, LONGNVARCHAR}
    ensures Compare(t, Str(a), Str(b), o) == Ok(0) <==> a == b
    ensures Compare(t, Str(a), Str(b), o).Ok? && Compare(t, Str(b), Str(a), o).Ok?
    ensures Compare(t, Str(a), Str(b), o).value == -Compare(t, Str(b), Str(a), o).value
  {
    LexicographicZero(Codes(a), Codes(b));
    LexicographicAntisymmetric(Codes(a), Codes(b));
    CodesInjective(a, b);
  }

  /** Binary columns: equal exactly for equal byte strings. */
  lemma BinaryColumns(t: JdbcType, a: seq<int>, b: seq<int>, o: Oracles)
    requires t in {BINARY, VARBINARY, LONGVARBINARY}
    ensures Compare(t, Bytes(a), Bytes(b), o) == Ok(0) <==> a == b
  {
    LexicographicZero(a, b);
  }

  /**
   * Integer columns compare Integer, Short and Byte values by number, so an
   * Integer equals a Short of the same value; a Long is never equal.
   */
  lemma IntegerColumns(t: JdbcType, actual: Value, expected: Value, o: Oracles)
    requires t in {TINYINT, SMALLINT, INTEGER}
    requires actual != Null && expected != Null
    ensures Compare(t, actual, expected, o) == Ok(0) <==>
      IsIntegerOrNarrower(actual) && IsIntegerOrNarrower(expected) && actual.i == expected.i
  {
  }

  /** BIGINT columns also accept Long values, compared by number. */
  lemma BigintColumns(actual: Value, expected: Value, o: Oracles)
    requires actual != Null && expected != Null
    ensures Compare(BIGINT, actual, expected, o) == Ok(0) <==>
      IsLongOrNarrower(actual) && IsLongOrNarrower(expected) && actual.i == expected.i
  {
  }

  /** A value of the wrong class never equals anything: text against a number, say. */
  lemma WrongClassDiffers(t: JdbcType, s: string, v: Value, o: Oracles)
    requires t in {TINYINT, SMALLINT, INTEGER, BIGINT, BIT, BOOLEAN, BINARY, VARBINARY, LONGVARBINARY}
    requires v != Null
    ensures Compare(t, Str(s), v, o) == Ok(-1)
  {
  }

  /**
   * Arrays are equal exactly when the actual java.sql.Array and the expected
   * List have the same size and every pair of elements is equal for the
   * array's base type; in particular an empty array equals an empty list.
   */
  lemma ArrayColumns(baseType: JdbcType, xs: seq<Value>, ys: seq<Value>, o: Oracles)
    ensures Compare(ARRAY, SqlArray(baseType, xs), List(ys), o) == Ok(0) <==>
      |xs| == |ys| && forall i :: 0 <= i < |xs| ==> Compare(baseType, xs[i], ys[i], o) == Ok(0)
  {
    assert Compare(ARRAY, SqlArray(baseType, xs), List(ys), o) == ArrayCompare(SqlArray(baseType, xs), List(ys), o);
    if |xs| == |ys| {
      ElementsZero(SqlArray(baseType, xs), ys, 0, o);
    }
  }

  lemma {:induction false} ElementsZero(actual: Value, expected: seq<Value>, i: nat, o: Oracles)
    requires actual.SqlArray? && |actual.elements| == |expected| && i <= |expected|
    ensures ElementsCompare(actual, expected, i, o) == Ok(0) <==>
      forall k :: i <= k < |expected| ==> Compare(actual.baseType, actual.elements[k], expected[k], o) == Ok(0)
    decreases |expected| - i
  {
    if i < |expected| {
      ElementsZero(actual, expected, i + 1, o);
    }
  }

  /**
   * The shape an expected value takes for an actual one: the same value,
   * except that a java.sql.Array is expected as a List of the expected forms
   * of its elements.
   */
  function ExpectedForm(v: Value): Value
  {
    match v
    case SqlArray(_, es) => List(seq(|es|, i requires 0 <= i < |es| => ExpectedForm(es[i])))
    case _ => v
  }

  /** A value of the Java class the column type's comparator expects. */
  predicate Conforms(t: JdbcType, v: Value)
    decreases v
  {
    v == Null ||
    (t in {CHAR, VARCHAR, LONGVARCHAR, LONGNVARCHAR} && v.Str?) ||
    (t in {BINARY, VARBINARY, LONGVARBINARY} && v.Bytes?) ||
    (t in {BIT, BOOLEAN} && v.Bool?) ||
    (t in {TINYINT, SMALLINT, INTEGER} && IsIntegerOrNarrower(v)) ||
    (t == BIGINT && IsLongOrNarrower(v)) ||
    (t in {DECIMAL, NUMERIC} && v.Opaque? && v.kind == BigDecimalValue) ||
    (t == DATE && v.Opaque? && v.kind == DateValue) ||
    (t in {TIME, TIME_WITH_TIMEZONE} && v.Opaque? && v.kind == TimeValue) ||
    (t in {TIMESTAMP, TIMESTAMP_WITH_TIMEZONE} && v.Opaque? && v.kind == TimestampValue) ||
    (t == ARRAY && v.SqlArray? && forall i :: 0 <= i < |v.elements| ==> Conforms(v.baseType, v.elements[i]))
  }

  /**
   * Every non-floating value of its column's class equals its own expected
   * form, provided compareTo of the oracle-backed classes is reflexive.
   */
  lemma {:induction false} CompareReflexive(t: JdbcType, v: Value, o: Oracles)
    requires Conforms(t, v)
    requires forall k, x :: o.compareOpaque(k, x, x) == 0
    ensures Compare(t, v, ExpectedForm(v), o) == Ok(0)
    decreases v
  {
    if v.SqlArray? {
      assert t == ARRAY;
      var expected := ExpectedForm(v).elements;
      forall k | 0 <= k < |expected|
        ensures Compare(v.baseType, v.elements[k], expected[k], o) == Ok(0)
      {
        CompareReflexive(v.baseType, v.elements[k], o);
      }
      ElementsZero(v, expected, 0, o);
      assert Compare(t, v, ExpectedForm(v), o) == ArrayCompare(v, ExpectedForm(v), o);
    } else if v != Null {
      ScalarReflexive(t, v, o);
    }
  }

  /** The same, for a value that is neither NULL nor an array. */
  lemma ScalarReflexive(t: JdbcType, v: Value, o: Oracles)
    requires Conforms(t, v) && v != Null && !v.SqlArray?
    requires forall k, x :: o.compareOpaque(k, x, x) == 0
    ensures Compare(t, v, v, o) == Ok(0)
  {
    match t
    case CHAR | VARCHAR | LONGVARCHAR | LONGNVARCHAR =>
      LexicographicZero(Codes(v.s), Codes(v.s));
    case BINARY | VARBINARY | LONGVARBINARY =>
      LexicographicZero(v.bytes, v.bytes);
    case BIT | BOOLEAN =>
    case TINYINT | SMALLINT | INTEGER =>
    case BIGINT =>
    case _ =>
  }
}
