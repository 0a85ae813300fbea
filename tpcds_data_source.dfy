/**
 * TpcdsDataSource: the data of a Hive table generated by the TPC-DS
 * generator, written as '|'-separated lines and streamed to HDFS through
 * an InputStream over the lines. The generator is a parameter here: the
 * rows it produces, each cell a string or null.
 */
module TpcdsDataSources {
  import opened Wrappers
  import opened Strings

  /** An unsigned byte. */
  newtype Byte = b: int | 0 <= b < 256

  /** A TPC-DS data source: the table (by its enum name) and a positive scale factor. */
  datatype TpcdsDataSource = TpcdsDataSource(table: string, scaleFactor: nat)

  /** The constructor: a scale factor of zero or less is an IllegalArgumentException. */
  function NewTpcdsDataSource(table: string, scaleFactor: int): (r: Result<TpcdsDataSource>)
    ensures r.Ok? <==> scaleFactor > 0
    ensures r.Ok? ==> r.value.table == table && r.value.scaleFactor == scaleFactor
    ensures r.Fail? ==> r.error == IllegalArgument
  {
    if scaleFactor <= 0 then Fail(IllegalArgument) else Ok(TpcdsDataSource(table, scaleFactor))
  }

  /** getPathSuffix: "tpcds/sf-<scale>/<table>" with every '.' turned into '_'. */
  function GetPathSuffix(d: TpcdsDataSource): string
  {
    ReplaceChar("tpcds/sf-" + NatToString(d.scaleFactor) + "/" + d.table, '.', "_")
  }

  /** A null cell is written as \N. */
  function Cell(column: Option<string>): string
  {
    if column.None? then "\\N" else column.value
  }

  function Cells(row: seq<Option<string>>): (r: seq<string>)
    ensures |r| == |row| && forall k :: 0 <= k < |row| ==> r[k] == Cell(row[k])
  {
    seq(|row|, k requires 0 <= k < |row| => Cell(row[k]))
  }

  /** formatRow: the cells joined by '|', and a closing '|'. */
  function FormatRow(row: seq<Option<string>>): string
  {
    Join(Cells(row), "|") + "|"
  }

  /** generate(): every row formatted, each followed by a line break. */
  function Lines(rows: seq<seq<Option<string>>>): (r: seq<string>)
    ensures |r| == 2 * |rows|
  {
    if rows == [] then [] else [FormatRow(rows[0]), "\n"] + Lines(rows[1..])
  }

  /** The UTF-8 encoding of one Unicode scalar value. */
  function Utf8(c: char): (r: seq<Byte>)
    ensures 1 <= |r| <= 4
    ensures forall k :: 0 <= k < |r| ==> r[k] <= 0xF4
  {
    var n := c as int;
    if n < 0x80 then [n as Byte]
    else if n < 0x800 then [(0xC0 + n / 0x40) as Byte, (0x80 + n % 0x40) as Byte]
    else if n < 0x10000 then
      [(0xE0 + n / 0x1000) as Byte, (0x80 + n / 0x40 % 0x40) as Byte, (0x80 + n % 0x40) as Byte]
    else
      [(0xF0 + n / 0x40000) as Byte, (0x80 + n / 0x1000 % 0x40) as Byte,
       (0x80 + n / 0x40 % 0x40) as Byte, (0x80 + n % 0x40) as Byte]
  }

  /** String.getBytes(UTF_8). */
  function Utf8String(s: string): (r: seq<Byte>)
    ensures |s| <= |r| <= 4 * |s|
  {
    if s == [] then [] else Utf8(s[0]) + Utf8String(s[1..])
  }

  /** The bytes of the strings, one after the other. */
  function EncodeAll(data: seq<string>): seq<Byte>
  {
    if data == [] then [] else Utf8String(data[0]) + EncodeAll(data[1..])
  }

  /** The bytes still to come: the rest of the current string's, then those of the strings after it. */
  function Pending(value: Option<seq<Byte>>, position: nat, data: seq<string>): seq<Byte>
    requires value.Some? ==> position <= |value.value|
  {
    (if value.Some? then value.value[position..] else []) + EncodeAll(data)
  }

  /** Fetching the next string's bytes leaves the pending bytes as they were. */
  lemma FetchNext(data: seq<string>)
    requires data != []
    ensures Pending(Some(Utf8String(data[0])), 0, data[1..]) == Pending(None, 0, data)
  {
    var bytes := Utf8String(data[0]);
    assert bytes[0..] == bytes;
  }

  /** Reading a byte of the current string takes the first pending byte. */
  lemma ReadByte(bytes: seq<Byte>, position: nat, data: seq<string>)
    requires position < |bytes|
    ensures Pending(Some(bytes), position, data) != []
    ensures Pending(Some(bytes), position, data)[0] == bytes[position]
    ensures Pending(Some(bytes), position + 1, data) == Pending(Some(bytes), position, data)[1..]
  {
    var rest := EncodeAll(data);
    assert (bytes[position..] + rest)[1..] == bytes[position + 1..] + rest;
  }

  /** A used-up string can be dropped without changing the pending bytes. */
  lemma UsedUp(bytes: seq<Byte>, position: nat, data: seq<string>)
    requires position == |bytes|
    ensures Pending(Some(bytes), position, data) == Pending(None, 0, data)
  {
    assert bytes[position..] == [];
  }

  /** A Java byte widened to int: the values from 0x80 up come out negative. */
  function Signed(b: Byte): (r: int)
    ensures -128 <= r < 128
  {
    if b < 0x80 then b as int else b as int - 256
  }

  /**
   * StringIteratorInputStream: the strings still to come, the bytes of the
   * current one (null before the first and after each is used up) and the
   * position in them.
   */
  class StringIteratorInputStream {
    var data: seq<string>
    var value: Option<seq<Byte>>
    var position: nat

    ghost predicate Valid()
      reads this
    {
      value.Some? ==> position <= |value.value|
    }

    /** The bytes that read() still has to return. */
    ghost function Remaining(): seq<Byte>
      reads this
      requires Valid()
    {
      Pending(value, position, data)
    }

    constructor(data: seq<string>)
      ensures Valid() && this.data == data && value == None && Remaining() == EncodeAll(data)
    {
      this.data := data;
      value := None;
      position := 0;
    }

    /**
     * read(): the next byte, sign-extended, or -1 once every string is
     * used up; the current string's bytes are fetched when needed.
     */
    method Read() returns (r: int)
      requires Valid()
      modifies this
      ensures Valid()
      ensures old(Remaining()) == [] ==> r == -1 && Remaining() == []
      ensures old(Remaining()) != [] ==>
        r == Signed(old(Remaining())[0]) && Remaining() == old(Remaining())[1..]
      decreases |data|, if value.None? then 0 else 1
    {
      if value.None? {
        if data != [] {
          var bytes := Utf8String(data[0]);
          FetchNext(data);
          position := 0;
          value := Some(bytes);
          data := data[1..];
        } else {
          return -1;
        }
      }
      if position < |value.value| {
        ReadByte(value.value, position, data);
        r := Signed(value.value[position]);
        position := position + 1;
      } else {
        UsedUp(value.value, position, data);
        value := None;
        r := Read();
      }
    }
  }

  /** data(): the stream over the generated lines. */
  method Data(rows: seq<seq<Option<string>>>) returns (stream: StringIteratorInputStream)
    ensures fresh(stream) && stream.Valid() && stream.Remaining() == EncodeAll(Lines(rows))
  {
    stream := new StringIteratorInputStream(Lines(rows));
  }

  // ---------------------------------------------------------------------
  // Lemmas

  lemma {:induction false} ReplaceCharRemoves(s: string, c: char, r: string)
    requires c !in r
    ensures c !in ReplaceChar(s, c, r)
  {
    if s != [] {
      ReplaceCharRemoves(s[1..], c, r);
    }
  }

  lemma {:induction false} ReplaceCharAbsent(s: string, c: char, r: string)
    requires c !in s
    ensures ReplaceChar(s, c, r) == s
  {
    if s != [] {
      ReplaceCharAbsent(s[1..], c, r);
      assert [s[0]] + s[1..] == s;
    }
  }

  /**
   * The path suffix never contains '.'; for a table name without '.' it is
   * exactly "tpcds/sf-<scale>/<table>".
   */
  lemma PathSuffix(d: TpcdsDataSource)
    ensures '.' !in GetPathSuffix(d)
    ensures '.' !in d.table ==> GetPathSuffix(d) == "tpcds/sf-" + NatToString(d.scaleFactor) + "/" + d.table
  {
    ReplaceCharRemoves("tpcds/sf-" + NatToString(d.scaleFactor) + "/" + d.table, '.', "_");
    if '.' !in d.table {
      DigitsOnly(d.scaleFactor);
      ReplaceCharAbsent("tpcds/sf-" + NatToString(d.scaleFactor) + "/" + d.table, '.', "_");
    }
  }

  /** The number of occurrences of c in s. */
  function CountChar(s: string, c: char): nat
  {
    if s == [] then 0 else (if s[0] == c then 1 else 0) + CountChar(s[1..], c)
  }

  lemma {:induction false} CountAppend(a: string, b: string, c: char)
    ensures CountChar(a + b, c) == CountChar(a, c) + CountChar(b, c)
  {
    if a == [] {
      assert a + b == b;
    } else {
      assert (a + b)[1..] == a[1..] + b;
      CountAppend(a[1..], b, c);
    }
  }

  lemma {:induction false} CountAbsent(s: string, c: char)
    requires c !in s
    ensures CountChar(s, c) == 0
  {
    if s != [] {
      CountAbsent(s[1..], c);
    }
  }

  lemma {:induction false} JoinCount(parts: seq<string>, c: char)
    requires |parts| >= 1
    requires forall k :: 0 <= k < |parts| ==> c !in parts[k]
    ensures CountChar(Join(parts, [c]), c) == |parts| - 1
  {
    CountAbsent(parts[0], c);
    if |parts| > 1 {
      JoinCount(parts[1..], c);
      CountAppend(parts[0], [c], c);
      CountAppend(parts[0] + [c], Join(parts[1..], [c]), c);
    }
  }

  /**
   * A row of at least one column, none holding '|', is written with exactly
   * one '|' per column, and splitting the line on '|' gives back the cells
   * followed by one blank: the shape a TPC-H line is read back with.
   */
  lemma FormatRowShape(row: seq<Option<string>>)
    requires |row| >= 1
    requires forall k :: 0 <= k < |row| ==> row[k].Some? ==> '|' !in row[k].value
    ensures CountChar(FormatRow(row), '|') == |row|
    ensures SplitOn(FormatRow(row), "|") == Cells(row) + [""]
  {
    var cells := Cells(row);
    assert forall k :: 0 <= k < |cells| ==> '|' !in cells[k];
    JoinCount(cells, '|');
    CountAppend(Join(cells, "|"), "|", '|');
    var parts := cells + [""];
    assert forall k :: 0 <= k < |parts| ==> '|' !in parts[k];
    JoinSnocEmpty(cells, "|");
    SplitJoinChar(parts, '|');
  }

  lemma {:induction false} JoinSnocEmpty(parts: seq<string>, sep: string)
    requires |parts| >= 1
    ensures Join(parts + [""], sep) == Join(parts, sep) + sep
  {
    if |parts| > 1 {
      assert (parts + [""])[1..] == parts[1..] + [""];
      JoinSnocEmpty(parts[1..], sep);
    } else {
      assert Join(parts + [""], sep) == parts[0] + sep + Join([""], sep);
    }
  }

  /** A row without columns is written as a lone '|'. */
  lemma FormatEmptyRow()
    ensures FormatRow([]) == "|"
  {
  }

  lemma {:induction false} EncodeAllAppend(a: seq<string>, b: seq<string>)
    ensures EncodeAll(a + b) == EncodeAll(a) + EncodeAll(b)
  {
    if a == [] {
      assert a + b == b;
    } else {
      assert (a + b)[1..] == a[1..] + b;
      EncodeAllAppend(a[1..], b);
    }
  }

  /** An empty string in the iterator adds no byte to the stream. */
  lemma EmptyStringAddsNothing(a: seq<string>, b: seq<string>)
    ensures EncodeAll(a + [""] + b) == EncodeAll(a + b)
  {
    EncodeAllAppend(a + [""], b);
    EncodeAllAppend(a, [""]);
    EncodeAllAppend(a, b);
  }

  lemma {:induction false} Utf8StringBound(s: string)
    ensures forall k :: 0 <= k < |Utf8String(s)| ==> Utf8String(s)[k] <= 0xF4
  {
    if s != [] {
      Utf8StringBound(s[1..]);
      var head := Utf8(s[0]);
      var tail := Utf8String(s[1..]);
      assert forall k :: |head| <= k < |head + tail| ==> (head + tail)[k] == tail[k - |head|];
    }
  }

  lemma {:induction false} EncodeAllBound(data: seq<string>)
    ensures forall k :: 0 <= k < |EncodeAll(data)| ==> EncodeAll(data)[k] <= 0xF4
  {
    if data != [] {
      Utf8StringBound(data[0]);
      EncodeAllBound(data[1..]);
      var head := Utf8String(data[0]);
      var tail := EncodeAll(data[1..]);
      assert forall k :: |head| <= k < |head + tail| ==> (head + tail)[k] == tail[k - |head|];
    }
  }

  /**
   * read() returns a negative value for every byte from 0x80 up, and the
   * byte is recovered modulo 256; no byte of UTF-8 text is 0xFF, so no byte
   * of the data reads as the end-of-stream -1.
   */
  lemma SignedBytes(data: seq<string>, b: Byte)
    ensures Signed(b) < 0 <==> b >= 0x80
    ensures Signed(b) % 256 == b as int
    ensures Signed(b) == -1 <==> b == 0xFF
    ensures forall k :: 0 <= k < |EncodeAll(data)| ==> Signed(EncodeAll(data)[k]) != -1
  {
    EncodeAllBound(data);
  }
}
