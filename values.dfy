/**
 * Java objects as they flow through query results and convention files:
 * null, String, Boolean, the boxed integer types, byte arrays, JDBC arrays
 * and lists. Floating-point numbers, BigDecimal and the java.sql date/time
 * classes are kept as the literal they were parsed from, tagged with their
 * class; parsing and comparing those is left to oracles passed in by callers.
 */
module Values {
  import opened Wrappers
  import opened Strings
  import opened JdbcTypes

  /** The Java classes whose values are only handled through oracles. */
  datatype OpaqueKind = FloatValue | DoubleValue | BigDecimalValue | DateValue | TimeValue | TimestampValue

  datatype Value =
    | Null
    | Str(s: string)
    | Bool(b: bool)
    | Byte(i: int)
    | Short(i: int)
    | Int(i: int)
    | Long(i: int)
    | Bytes(bytes: seq<int>)                      // byte[]; each byte as its unsigned value 0..255
    | Opaque(kind: OpaqueKind, text: string)
    | SqlArray(baseType: JdbcType, elements: seq<Value>)   // java.sql.Array
    | List(elements: seq<Value>)                  // java.util.List

  const INTEGER_MIN: int := -0x8000_0000
  const INTEGER_MAX: int := 0x7FFF_FFFF
  const LONG_MIN: int := -0x8000_0000_0000_0000
  const LONG_MAX: int := 0x7FFF_FFFF_FFFF_FFFF

  // ---------------------------------------------------------------------
  // Integer.valueOf / Long.valueOf

  predicate IsDigit(c: char)
  {
    '0' <= c <= '9'
  }

  predicate AllDigits(s: string)
  {
    forall i :: 0 <= i < |s| ==> IsDigit(s[i])
  }

  function DigitsValue(s: string): nat
    requires AllDigits(s)
  {
    if s == [] then 0 else DigitsValue(s[..|s| - 1]) * 10 + (s[|s| - 1] as int - '0' as int)
  }

  /**
   * Java's parseInt/parseLong: an optional '+' or '-', then at least one
   * decimal digit, and a value within [lo, hi]; None where Java throws
   * NumberFormatException.
   */
  function ParseSigned(s: string, lo: int, hi: int): (r: Option<int>)
    ensures r.Some? ==> lo <= r.value <= hi
  {
    if s == [] then None
    else
      var digits := if s[0] == '-' || s[0] == '+' then s[1..] else s;
      if digits == [] || !AllDigits(digits) then None
      else
        var n: int := if s[0] == '-' then -(DigitsValue(digits) as int) else DigitsValue(digits);
        if lo <= n <= hi then Some(n) else None
  }

  function ParseInteger(s: string): Option<int>
  {
    ParseSigned(s, INTEGER_MIN, INTEGER_MAX)
  }

  function ParseLong(s: string): Option<int>
  {
    ParseSigned(s, LONG_MIN, LONG_MAX)
  }

  // ---------------------------------------------------------------------
  // DatatypeConverter.parseHexBinary

  function HexDigit(c: char): (r: Option<nat>)
    ensures r.Some? ==> r.value < 16
  {
    if '0' <= c <= '9' then Some(c as int - '0' as int)
    else if 'A' <= c <= 'F' then Some(c as int - 'A' as int + 10)
    else if 'a' <= c <= 'f' then Some(c as int - 'a' as int + 10)
    else None
  }

  /** Pairs of hex digits to bytes; an odd length or a non-hex character is an IllegalArgumentException (None). */
  function ParseHexBinary(s: string): (r: Option<seq<int>>)
    ensures r.Some? ==> |s| == 2 * |r.value| && forall i :: 0 <= i < |r.value| ==> 0 <= r.value[i] < 256
    decreases |s|
  {
    if |s| % 2 == 1 then None
    else if s == [] then Some([])
    else match (HexDigit(s[0]), HexDigit(s[1]), ParseHexBinary(s[2..]))
      case (Some(h), Some(l), Some(rest)) => Some([h * 16 + l] + rest)
      case _ => None
  }

  function HexChar(d: nat): char
    requires d < 16
  {
    "0123456789ABCDEF"[d]
  }

  /** DatatypeConverter.printHexBinary: two upper-case hex digits per byte. */
  function PrintHexBinary(bytes: seq<int>): (s: string)
    requires forall i :: 0 <= i < |bytes| ==> 0 <= bytes[i] < 256
    ensures |s| == 2 * |bytes|
  {
    if bytes == [] then []
    else [HexChar(bytes[0] / 16), HexChar(bytes[0] % 16)] + PrintHexBinary(bytes[1..])
  }

  /** Boolean.valueOf(String): true exactly for "true" in any case, false for everything else. */
  function BooleanValueOf(value: string): bool
  {
    EqualsIgnoreCase(value, "true")
  }

  /** String.valueOf for the values whose rendering is fixed by Java. */
  function Show(v: Value, showOpaque: (OpaqueKind, string) -> string): string
  {
    match v
    case Null => "null"
    case Str(s) => s
    case Bool(b) => if b then "true" else "false"
    case Byte(i) => IntToString(i)
    case Short(i) => IntToString(i)
    case Int(i) => IntToString(i)
    case Long(i) => IntToString(i)
    case Opaque(k, t) => showOpaque(k, t)
    case _ => showOpaque(DoubleValue, "")
  }

  // ---------------------------------------------------------------------
  // Lemmas

  lemma NatToStringDigits(n: nat)
    ensures AllDigits(NatToString(n)) && NatToString(n)[0] != '-' && NatToString(n)[0] != '+'
    ensures DigitsValue(NatToString(n)) == n
    decreases n
  {
    if n >= 10 {
      NatToStringDigits(n / 10);
      var s := NatToString(n);
      assert s[..|s| - 1] == NatToString(n / 10);
    }
  }

  /**
   * Round trip: parseInt/parseLong read back Integer.toString of every value
   * in range, and reject the rendering of every value outside it.
   */
  lemma ParseSignedToString(n: int, lo: int, hi: int)
    ensures ParseSigned(IntToString(n), lo, hi) == if lo <= n <= hi then Some(n) else None
  {
    if n < 0 {
      ParseNegativeToString(n, lo, hi);
    } else {
      ParseNonNegativeToString(n, lo, hi);
    }
  }

  lemma ParseNegativeToString(n: int, lo: int, hi: int)
    requires n < 0
    ensures ParseSigned(IntToString(n), lo, hi) == if lo <= n <= hi then Some(n) else None
  {
    var m: nat := -n;
    NatToStringDigits(m);
    ParseNegative(IntToString(n), NatToString(m), m, lo, hi);
  }

  lemma ParseNonNegativeToString(n: int, lo: int, hi: int)
    requires n >= 0
    ensures ParseSigned(IntToString(n), lo, hi) == if lo <= n <= hi then Some(n) else None
  {
    NatToStringDigits(n);
    ParseUnsigned(IntToString(n), n, lo, hi);
  }

  /** Digits alone are read as their value. */
  lemma ParseUnsigned(s: string, value: nat, lo: int, hi: int)
    requires s != [] && AllDigits(s) && DigitsValue(s) == value
    ensures ParseSigned(s, lo, hi) == if lo <= value <= hi then Some(value) else None
  {
    assert IsDigit(s[0]);
  }

  /** A '-' and digits are read as the value's negation. */
  lemma ParseNegative(s: string, digits: string, value: nat, lo: int, hi: int)
    requires s == "-" + digits && digits != [] && AllDigits(digits) && DigitsValue(digits) == value
    ensures ParseSigned(s, lo, hi) == if lo <= -(value as int) <= hi then Some(-(value as int)) else None
  {
    assert s[0] == '-' && s[1..] == digits;
  }

  /** A value outside the range is rejected, however it is written. */
  lemma ParseSignedRange(s: string, lo: int, hi: int)
    ensures ParseSigned(s, lo, hi).Some? ==> lo <= ParseSigned(s, lo, hi).value <= hi
  {
  }

  lemma HexCharDigit(d: nat)
    requires d < 16
    ensures HexDigit(HexChar(d)) == Some(d)
  {
  }

  /** Round trip: parseHexBinary reads back printHexBinary. */
  lemma {:induction false} ParsePrintHexBinary(bytes: seq<int>)
    requires forall i :: 0 <= i < |bytes| ==> 0 <= bytes[i] < 256
    ensures ParseHexBinary(PrintHexBinary(bytes)) == Some(bytes)
  {
    if bytes != [] {
      var tail := bytes[1..];
      ParsePrintHexBinary(tail);
      HexByte(bytes[0], PrintHexBinary(tail), tail);
      assert [bytes[0]] + tail == bytes;
    }
  }

  /** One byte's two digits in front of a parsable rest. */
  lemma HexByte(b: int, rest: string, tail: seq<int>)
    requires 0 <= b < 256 && ParseHexBinary(rest) == Some(tail)
    ensures ParseHexBinary([HexChar(b / 16), HexChar(b % 16)] + rest) == Some([b] + tail)
  {
    ByteDigits(b);
    HexPair(b / 16, b % 16, rest, tail);
  }

  lemma ByteDigits(b: int)
    requires 0 <= b < 256
    ensures 0 <= b / 16 < 16 && 0 <= b % 16 < 16 && (b / 16) * 16 + b % 16 == b
  {
  }

  lemma HexPair(h: nat, l: nat, rest: string, tail: seq<int>)
    requires h < 16 && l < 16 && ParseHexBinary(rest) == Some(tail)
    ensures ParseHexBinary([HexChar(h), HexChar(l)] + rest) == Some([h * 16 + l] + tail)
  {
    var s := [HexChar(h), HexChar(l)] + rest;
    HexCharDigit(h);
    HexCharDigit(l);
    assert s[0] == HexChar(h) && s[1] == HexChar(l) && s[2..] == rest;
  }

  /** printHexBinary writes only decimal digits and the upper-case letters A to F. */
  lemma {:induction false} PrintHexBinaryChars(bytes: seq<int>, k: nat)
    requires forall i :: 0 <= i < |bytes| ==> 0 <= bytes[i] < 256
    requires k < |PrintHexBinary(bytes)|
    ensures '0' <= PrintHexBinary(bytes)[k] <= '9' || 'A' <= PrintHexBinary(bytes)[k] <= 'F'
  {
    if k >= 2 {
      PrintHexBinaryChars(bytes[1..], k - 2);
    }
  }

  /** An odd number of hex digits is always rejected. */
  lemma HexOddLength(s: string)
    requires |s| % 2 == 1
    ensures ParseHexBinary(s) == None
  {
  }
}
