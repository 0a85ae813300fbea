/**
 * TableHandle: an immutable reference to a table by name, with an optional
 * schema and database, and a flag that asks for a table without schema.
 * Java's equals compares all four fields, which is datatype equality here.
 */
module TableHandles {
  import opened Wrappers
  import opened Strings

  datatype TableHandle = TableHandle(database: Option<string>, schema: Option<string>, name: string, requireNoSchema: bool)
  {
    /** The constructor's check: a handle asking for no schema has none. */
    predicate Valid()
    {
      !(requireNoSchema && schema.Some?)
    }

    function WithName(newName: string): (r: TableHandle)
      ensures r.Valid()
      ensures r.name == newName && r.database == database && r.schema == schema && !r.requireNoSchema
    {
      TableHandle(database, schema, newName, false)
    }

    function InDatabase(db: string): (r: TableHandle)
      ensures r.Valid()
      ensures r.database == Some(db) && r.schema == schema && r.name == name && !r.requireNoSchema
    {
      TableHandle(Some(db), schema, name, false)
    }

    function InSchema(s: string): (r: TableHandle)
      ensures r.Valid()
      ensures r.schema == Some(s) && r.database == database && r.name == name && !r.requireNoSchema
    {
      TableHandle(database, Some(s), name, false)
    }

    function WithNoSchema(): (r: TableHandle)
      ensures r.Valid()
      ensures r.schema == None && r.requireNoSchema && r.database == database && r.name == name
    {
      TableHandle(database, None, name, true)
    }
  }

  /** tableHandle(name): a bare name. */
  function Named(name: string): (r: TableHandle)
    ensures r.Valid() && r.name == name && r.database == None && r.schema == None && !r.requireNoSchema
  {
    TableHandle(None, None, name, false)
  }

  /**
   * The handle the like() builders of table definitions start from: the
   * name and, when there is one, the schema; never the database.
   */
  function LikeHandle(h: TableHandle): (r: TableHandle)
    ensures r.Valid() && r.name == h.name && r.schema == h.schema && r.database == None && !r.requireNoSchema
  {
    if h.schema.Some? then Named(h.name).InSchema(h.schema.value) else Named(h.name)
  }

  /** TableHandle.parse: "name", "schema.name" or "database.schema.name". */
  function Parse(value: string): Result<TableHandle>
  {
    if !Contains(value, ".") then Ok(Named(value))
    else
      var parts := SplitOn(value, ".");
      if |parts| == 2 then Ok(Named(parts[1]).InSchema(parts[0]))
      else if |parts| == 3 then Ok(Named(parts[2]).InDatabase(parts[0]).InSchema(parts[1]))
      else Fail(IllegalArgument)
  }

  /** Writes a handle the way parse reads it back. */
  function Qualified(h: TableHandle): string
  {
    match (h.database, h.schema)
    case (Some(d), Some(s)) => d + "." + s + "." + h.name
    case (None, Some(s)) => s + "." + h.name
    case (_, None) => h.name
  }

  /** A handle whose parts can be written down without a '.' in them. */
  predicate Printable(h: TableHandle)
  {
    '.' !in h.name &&
    (h.schema.Some? ==> '.' !in h.schema.value) &&
    (h.database.Some? ==> '.' !in h.database.value && h.schema.Some?)
  }

  // ---------------------------------------------------------------------
  // Lemmas

  lemma NoDotAbsent(s: string)
    requires '.' !in s
    ensures !Contains(s, ".")
  {
    forall j | 0 <= j <= |s| ensures !OccursAt(s, ".", j) {
      OccursAtChar(s, j, '.');
    }
  }

  lemma DotPresent(parts: seq<string>)
    requires |parts| >= 2
    ensures Contains(Join(parts, "."), ".")
  {
    ContainsAt(Join(parts, "."), ".", |parts[0]|);
  }

  /** Every parsed handle satisfies the constructor's check and does not ask for no schema. */
  lemma ParseValid(value: string)
    ensures Parse(value).Ok? ==> Parse(value).value.Valid() && !Parse(value).value.requireNoSchema
  {
  }

  /** A name without '.' parses to a handle with only that name. */
  lemma ParseBareName(value: string)
    requires '.' !in value
    ensures Parse(value) == Ok(TableHandle(None, None, value, false))
  {
    NoDotAbsent(value);
  }

  /** "s.n" gives schema s and name n; "d.s.n" gives database d, schema s and name n. */
  lemma ParseQualified(parts: seq<string>)
    requires 2 <= |parts| <= 3 && forall k :: 0 <= k < |parts| ==> '.' !in parts[k]
    ensures |parts| == 2 ==> Parse(Join(parts, ".")) == Ok(TableHandle(None, Some(parts[0]), parts[1], false))
    ensures |parts| == 3 ==> Parse(Join(parts, ".")) == Ok(TableHandle(Some(parts[0]), Some(parts[1]), parts[2], false))
  {
    DotPresent(parts);
    SplitJoinChar(parts, '.');
  }

  /** More than two '.' separators are rejected. */
  lemma ParseTooManyDots(parts: seq<string>)
    requires |parts| >= 4 && forall k :: 0 <= k < |parts| ==> '.' !in parts[k]
    ensures Parse(Join(parts, ".")) == Fail(IllegalArgument)
  {
    DotPresent(parts);
    SplitJoinChar(parts, '.');
  }

  /** Round trip: parse reads back every printable handle that does not ask for no schema. */
  lemma ParseQualifiedRoundTrip(h: TableHandle)
    requires Printable(h) && !h.requireNoSchema
    ensures Parse(Qualified(h)) == Ok(h)
  {
    match (h.database, h.schema)
    case (Some(d), Some(s)) =>
      assert [d, s, h.name][1..] == [s, h.name];
      assert Join([s, h.name], ".") == s + "." + h.name;
      assert Join([d, s, h.name], ".") == Qualified(h);
      ParseQualified([d, s, h.name]);
    case (None, Some(s)) =>
      assert Join([s, h.name], ".") == Qualified(h);
      ParseQualified([s, h.name]);
    case (_, None) =>
      ParseBareName(h.name);
  }
}
