/** The constants of java.sql.JDBCType, in declaration order, with Enum.name and Enum.valueOf. */
module JdbcTypes {
  import opened Wrappers

  datatype JdbcType =
    | BIT
    | TINYINT
    | SMALLINT
    | INTEGER
    | BIGINT
    | FLOAT
    | REAL
    | DOUBLE
    | NUMERIC
    | DECIMAL
    | CHAR
    | VARCHAR
    | LONGVARCHAR
    | DATE
    | TIME
    | TIMESTAMP
    | BINARY
    | VARBINARY
    | LONGVARBINARY
    | NULL
    | OTHER
    | JAVA_OBJECT
    | DISTINCT
    | STRUCT
    | ARRAY
    | BLOB
    | CLOB
    | REF
    | DATALINK
    | BOOLEAN
    | ROWID
    | NCHAR
    | NVARCHAR
    | LONGNVARCHAR
    | NCLOB
    | SQLXML
    | REF_CURSOR
    | TIME_WITH_TIMEZONE
    | TIMESTAMP_WITH_TIMEZONE

  /** Enum.name(): the constant's identifier. */
  function Name(t: JdbcType): string
  {
    match t
    case BIT => "BIT"
    case TINYINT => "TINYINT"
    case SMALLINT => "SMALLINT"
    case INTEGER => "INTEGER"
    case BIGINT => "BIGINT"
    case FLOAT => "FLOAT"
    case REAL => "REAL"
    case DOUBLE => "DOUBLE"
    case NUMERIC => "NUMERIC"
    case DECIMAL => "DECIMAL"
    case CHAR => "CHAR"
    case VARCHAR => "VARCHAR"
    case LONGVARCHAR => "LONGVARCHAR"
    case DATE => "DATE"
    case TIME => "TIME"
    case TIMESTAMP => "TIMESTAMP"
    case BINARY => "BINARY"
    case VARBINARY => "VARBINARY"
    case LONGVARBINARY => "LONGVARBINARY"
    case NULL => "NULL"
    case OTHER => "OTHER"
    case JAVA_OBJECT => "JAVA_OBJECT"
    case DISTINCT => "DISTINCT"
    case STRUCT => "STRUCT"
    case ARRAY => "ARRAY"
    case BLOB => "BLOB"
    case CLOB => "CLOB"
    case REF => "REF"
    case DATALINK => "DATALINK"
    case BOOLEAN => "BOOLEAN"
    case ROWID => "ROWID"
    case NCHAR => "NCHAR"
    case NVARCHAR => "NVARCHAR"
    case LONGNVARCHAR => "LONGNVARCHAR"
    case NCLOB => "NCLOB"
    case SQLXML => "SQLXML"
    case REF_CURSOR => "REF_CURSOR"
    case TIME_WITH_TIMEZONE => "TIME_WITH_TIMEZONE"
    case TIMESTAMP_WITH_TIMEZONE => "TIMESTAMP_WITH_TIMEZONE"
  }

  /** Enum.ordinal(): the position in declaration order. */
  function Ordinal(t: JdbcType): nat
  {
    match t
    case BIT => 0
    case TINYINT => 1
    case SMALLINT => 2
    case INTEGER => 3
    case BIGINT => 4
    case FLOAT => 5
    case REAL => 6
    case DOUBLE => 7
    case NUMERIC => 8
    case DECIMAL => 9
    case CHAR => 10
    case VARCHAR => 11
    case LONGVARCHAR => 12
    case DATE => 13
    case TIME => 14
    case TIMESTAMP => 15
    case BINARY => 16
    case VARBINARY => 17
    case LONGVARBINARY => 18
    case NULL => 19
    case OTHER => 20
    case JAVA_OBJECT => 21
    case DISTINCT => 22
    case STRUCT => 23
    case ARRAY => 24
    case BLOB => 25
    case CLOB => 26
    case REF => 27
    case DATALINK => 28
    case BOOLEAN => 29
    case ROWID => 30
    case NCHAR => 31
    case NVARCHAR => 32
    case LONGNVARCHAR => 33
    case NCLOB => 34
    case SQLXML => 35
    case REF_CURSOR => 36
    case TIME_WITH_TIMEZONE => 37
    case TIMESTAMP_WITH_TIMEZONE => 38
  }

  /** Enum.values(), in declaration order. */
  const AllTypes: seq<JdbcType> := [
    BIT, TINYINT, SMALLINT, INTEGER, BIGINT, FLOAT,
    REAL, DOUBLE, NUMERIC, DECIMAL, CHAR, VARCHAR,
    LONGVARCHAR, DATE, TIME, TIMESTAMP, BINARY, VARBINARY,
    LONGVARBINARY, NULL, OTHER, JAVA_OBJECT, DISTINCT, STRUCT,
    ARRAY, BLOB, CLOB, REF, DATALINK, BOOLEAN,
    ROWID, NCHAR, NVARCHAR, LONGNVARCHAR, NCLOB, SQLXML,
    REF_CURSOR, TIME_WITH_TIMEZONE, TIMESTAMP_WITH_TIMEZONE
  ]

  lemma AllTypesComplete(t: JdbcType)
    ensures t in AllTypes
  {
  }

  /** The first constant of `ts` with the given name. */
  function FindByName(ts: seq<JdbcType>, s: string): (r: Option<JdbcType>)
    ensures r.Some? ==> r.value in ts && Name(r.value) == s
    ensures r.None? ==> forall t :: t in ts ==> Name(t) != s
  {
    if ts == [] then None
    else if Name(ts[0]) == s then Some(ts[0])
    else FindByName(ts[1..], s)
  }

  /**
   * Enum.valueOf(String): the constant whose name is exactly `s`; None where
   * Java throws IllegalArgumentException.
   */
  function ValueOf(s: string): (r: Option<JdbcType>)
    ensures r.Some? ==> Name(r.value) == s
    ensures r.None? ==> forall t :: Name(t) != s
  {
    var r := FindByName(AllTypes, s);
    assert r.None? ==> forall t :: Name(t) != s by {
      forall t ensures t in AllTypes { AllTypesComplete(t); }
    }
    r
  }

  // ---------------------------------------------------------------------
  // Lemmas

  /** Length, first and last letter of a constant's name: no two names agree on all three. */
  function Signature(t: JdbcType): (int, char, char)
  {
    match t
    case BIT => (3, 'B', 'T')
    case TINYINT => (7, 'T', 'T')
    case SMALLINT => (8, 'S', 'T')
    case INTEGER => (7, 'I', 'R')
    case BIGINT => (6, 'B', 'T')
    case FLOAT => (5, 'F', 'T')
    case REAL => (4, 'R', 'L')
    case DOUBLE => (6, 'D', 'E')
    case NUMERIC => (7, 'N', 'C')
    case DECIMAL => (7, 'D', 'L')
    case CHAR => (4, 'C', 'R')
    case VARCHAR => (7, 'V', 'R')
    case LONGVARCHAR => (11, 'L', 'R')
    case DATE => (4, 'D', 'E')
    case TIME => (4, 'T', 'E')
    case TIMESTAMP => (9, 'T', 'P')
    case BINARY => (6, 'B', 'Y')
    case VARBINARY => (9, 'V', 'Y')
    case LONGVARBINARY => (13, 'L', 'Y')
    case NULL => (4, 'N', 'L')
    case OTHER => (5, 'O', 'R')
    case JAVA_OBJECT => (11, 'J', 'T')
    case DISTINCT => (8, 'D', 'T')
    case STRUCT => (6, 'S', 'T')
    case ARRAY => (5, 'A', 'Y')
    case BLOB => (4, 'B', 'B')
    case CLOB => (4, 'C', 'B')
    case REF => (3, 'R', 'F')
    case DATALINK => (8, 'D', 'K')
    case BOOLEAN => (7, 'B', 'N')
    case ROWID => (5, 'R', 'D')
    case NCHAR => (5, 'N', 'R')
    case NVARCHAR => (8, 'N', 'R')
    case LONGNVARCHAR => (12, 'L', 'R')
    case NCLOB => (5, 'N', 'B')
    case SQLXML => (6, 'S', 'L')
    case REF_CURSOR => (10, 'R', 'R')
    case TIME_WITH_TIMEZONE => (18, 'T', 'E')
    case TIMESTAMP_WITH_TIMEZONE => (23, 'T', 'E')
  }

  /** The constant with a given signature, looked up by length, then by first and last letter. */
  function OfSignature(sig: (int, char, char)): Option<JdbcType>
  {
    match sig.0
    case 3 => if sig.1 == 'B' && sig.2 == 'T' then Some(BIT) else if sig.1 == 'R' && sig.2 == 'F' then Some(REF) else None
    case 4 => if sig.1 == 'R' && sig.2 == 'L' then Some(REAL) else if sig.1 == 'C' && sig.2 == 'R' then Some(CHAR) else if sig.1 == 'D' && sig.2 == 'E' then Some(DATE) else if sig.1 == 'T' && sig.2 == 'E' then Some(TIME) else if sig.1 == 'N' && sig.2 == 'L' then Some(NULL) else if sig.1 == 'B' && sig.2 == 'B' then Some(BLOB) else if sig.1 == 'C' && sig.2 == 'B' then Some(CLOB) else None
    case 5 => if sig.1 == 'F' && sig.2 == 'T' then Some(FLOAT) else if sig.1 == 'O' && sig.2 == 'R' then Some(OTHER) else if sig.1 == 'A' && sig.2 == 'Y' then Some(ARRAY) else if sig.1 == 'R' && sig.2 == 'D' then Some(ROWID) else if sig.1 == 'N' && sig.2 == 'R' then Some(NCHAR) else if sig.1 == 'N' && sig.2 == 'B' then Some(NCLOB) else None
    case 6 => if sig.1 == 'B' && sig.2 == 'T' then Some(BIGINT) else if sig.1 == 'D' && sig.2 == 'E' then Some(DOUBLE) else if sig.1 == 'B' && sig.2 == 'Y' then Some(BINARY) else if sig.1 == 'S' && sig.2 == 'T' then Some(STRUCT) else if sig.1 == 'S' && sig.2 == 'L' then Some(SQLXML) else None
    case 7 => if sig.1 == 'T' && sig.2 == 'T' then Some(TINYINT) else if sig.1 == 'I' && sig.2 == 'R' then Some(INTEGER) else if sig.1 == 'N' && sig.2 == 'C' then Some(NUMERIC) else if sig.1 == 'D' && sig.2 == 'L' then Some(DECIMAL) else if sig.1 == 'V' && sig.2 == 'R' then Some(VARCHAR) else if sig.1 == 'B' && sig.2 == 'N' then Some(BOOLEAN) else None
    case 8 => if sig.1 == 'S' && sig.2 == 'T' then Some(SMALLINT) else if sig.1 == 'D' && sig.2 == 'T' then Some(DISTINCT) else if sig.1 == 'D' && sig.2 == 'K' then Some(DATALINK) else if sig.1 == 'N' && sig.2 == 'R' then Some(NVARCHAR) else None
    case 9 => if sig.1 == 'T' && sig.2 == 'P' then Some(TIMESTAMP) else if sig.1 == 'V' && sig.2 == 'Y' then Some(VARBINARY) else None
    case 10 => if sig.1 == 'R' && sig.2 == 'R' then Some(REF_CURSOR) else None
    case 11 => if sig.1 == 'L' && sig.2 == 'R' then Some(LONGVARCHAR) else if sig.1 == 'J' && sig.2 == 'T' then Some(JAVA_OBJECT) else None
    case 12 => if sig.1 == 'L' && sig.2 == 'R' then Some(LONGNVARCHAR) else None
    case 13 => if sig.1 == 'L' && sig.2 == 'Y' then Some(LONGVARBINARY) else None
    case 18 => if sig.1 == 'T' && sig.2 == 'E' then Some(TIME_WITH_TIMEZONE) else None
    case 23 => if sig.1 == 'T' && sig.2 == 'E' then Some(TIMESTAMP_WITH_TIMEZONE) else None
    case _ => None
  }

  /** Every constant is found again from its signature. */
  lemma OfSignatureInverse(t: JdbcType)
    ensures OfSignature(Signature(t)) == Some(t)
  {
  }

  /** What the lemmas below need of a name: its signature, and no '|' in it. */
  predicate NameFacts(t: JdbcType)
  {
    |Name(t)| > 0 && Signature(t) == (|Name(t)|, Name(t)[0], Name(t)[|Name(t)| - 1]) && '|' !in Name(t)
  }

  /** Every name has them: shown for the constants eight at a time, in declaration order. */
  lemma AllNameFacts(t: JdbcType)
    ensures NameFacts(t)
  {
    if Ordinal(t) < 8 {
      NameFacts0(t);
    } else if Ordinal(t) < 16 {
      NameFacts8(t);
    } else if Ordinal(t) < 24 {
      NameFacts16(t);
    } else if Ordinal(t) < 32 {
      NameFacts24(t);
    } else {
      NameFacts32(t);
    }
  }

  lemma NameFacts0(t: JdbcType)
    requires Ordinal(t) < 8
    ensures NameFacts(t)
  {
  }

  lemma NameFacts8(t: JdbcType)
    requires 8 <= Ordinal(t) < 16
    ensures NameFacts(t)
  {
  }

  lemma NameFacts16(t: JdbcType)
    requires 16 <= Ordinal(t) < 24
    ensures NameFacts(t)
  {
  }

  lemma NameFacts24(t: JdbcType)
    requires 24 <= Ordinal(t) < 32
    ensures NameFacts(t)
  {
  }

  lemma NameFacts32(t: JdbcType)
    requires 32 <= Ordinal(t)
    ensures NameFacts(t)
  {
  }

  /** The constants' names are distinct, so valueOf can read every one back. */
  lemma NameInjective(a: JdbcType, b: JdbcType)
    requires Name(a) == Name(b)
    ensures a == b
  {
    assert Signature(a) == Signature(b) by {
      AllNameFacts(a);
      AllNameFacts(b);
    }
    OfSignatureInverse(a);
    OfSignatureInverse(b);
  }

  /** No constant's name holds '|'. */
  lemma NameHasNoBar(t: JdbcType)
    ensures '|' !in Name(t)
  {
    AllNameFacts(t);
  }
}
