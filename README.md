# Tempto core logic in Dafny

Tempto is a product-testing framework for SQL engines. Around its TestNG, Guice, JDBC and
storage-client plumbing sits a set of small, self-contained routines. These decide which
tests run, how convention test files are read, how tables are named, defined and
loaded, and how query results are compared. This project models those routines and
proves what they promise. There is one Dafny module per source class. The shared
modules are `Wrappers` (Option, Result and the Java exception kinds), `Strings`
(split, join, replace and the three trims: Java, Guava and the convention files'),
`Values` (the Java objects a query returns), `JdbcTypes` and `PyInts` (Python's
unbounded-integer bit operations).

A Java exception becomes `Fail(kind)` with the exception's kind (IllegalArgument,
IllegalState, NoSuchElement, NullPointer, IndexOutOfBounds, Unsupported, Parsing).
A `NumberFormatException` counts as IllegalArgument. A class whose fields the source updates
in place is a Dafny `class`. Its methods state the new state and are proved against a
specification function; the lemmas are about that function. Statements sent to a
database or a Cassandra session are appended to an effect log.

The model covers ten groups of code:

- **fpdiff.py**, the float-tolerant file diff. It covers the line and token loops, the
  float-then-double-then-string token rule, the IEEE-754 masks derived from the bit
  counts, `sign_bit` on signed raw bits (0 or -1), the NaN test and the four
  `almost_equals` criteria. Float parsing, narrowing, packing and the real-valued error
  arithmetic are an oracle record `FpDiff.Numerics`.
- **Convention files.** `AnnotatedFileParser` and the older `HeaderFileParser` split a
  file into sections and parse `k: v; k2: v2` headers. `SqlDescriptor`,
  `SqlQueryDescriptor`, `SqlResultDescriptor` and `JdbcDataFileDescriptor` add property
  precedence, mutable-table entries and row parsing. `QueryRowMapper` and its older copy
  turn cells into typed values.
- **Tables.** This group covers `TableHandle` parsing and the `like`, `with` and `in`
  operations, and `TablesState` lookup, both versions. It also covers
  `TableDefinitionsRepository`, `DefaultTableManagerDispatcher`, the Hive definitions
  (both versions), `RelationalTableDefinition` and `MutableTableRequirement`.
- **Requirements.** `compose` and `allOf` are proved to be AND and OR over requirement
  sets. The older `com.teradata.test.Requirements` has the same logic, so it is
  covered by the same module.
- **Loading.** This group covers `JdbcTableManager`'s name escaping and `partitionBy`,
  the two `InsertLoader`s and `CassandraBatchLoader`. It also covers the TPC-H column
  remapping for Cassandra and TPC-DS row formatting with its byte stream.
- **Configuration.** `MapConfiguration` (both versions) is a tree of maps read with
  dotted keys; `KeyUtils` is not part of this model, and keys are split and joined on
  '.'. `JdbcConnectionsConfiguration` resolves aliases with cycle detection.
- **Test selection.** `TestNameGroupNameMethodSelector`, both versions. The class comment
  of the current selector (TestNameGroupNameMethodSelector.java:48 under
  tempto-core) says a requested test name must be a suffix of the test name. The
  code tests `contains` (line 96). The model follows the code:
  `MethodSelectors.NameMatchesSubstring` shows a name selected by a match in its
  middle. The older selector under test-framework-core does what that comment says:
  the whole name or its last dotted part (lines 38 and 90-91).
- **Convention test plumbing.** `ConventionBasedTestProxyGenerator`'s name derivations
  and `SqlQueryConventionBasedTest`'s test names, query splitting and result check.
- **Query results.** `QueryResult` and its builder, projection and columns;
  `QueryAssert`'s row matching; `QueryResultValueComparator`'s comparison per column
  type.
- **The runner command line.** `TemptoRunnerCommandLineParser` (the builder, the
  exposed options, default and flag resolution) and `TemptoRunnerOptions`.

`TableInstance` is not part of this model. A table instance is a record of its name,
schema, database and name in the database.

## Model

| member | source | states |
|---|---|---|
| AnnotatedFileParser.LineClasses | tempto-core/src/main/java/io/prestodb/tempto/internal/convention/AnnotatedFileParser.java:175-198 | comment, section and properties lines are mutually exclusive, and a line is special exactly when it starts with "--" |
| AnnotatedFileParser.FindNextSectionIndex | tempto-core/src/main/java/io/prestodb/tempto/internal/convention/AnnotatedFileParser.java:132-140 | the result is -1 or an index from 1 on; it is the first section line after the first line, and -1 means there is none |
| AnnotatedFileParser.SplitSections | tempto-core/src/main/java/io/prestodb/tempto/internal/convention/AnnotatedFileParser.java:116-130 | the sections concatenate back to the input; every section after the first opens with a "--!" line and holds no other; empty input gives exactly one empty section, and non-empty input gives no empty section |
| AnnotatedFileParser.SplitStep | tempto-core/src/main/java/io/prestodb/tempto/internal/convention/AnnotatedFileParser.java:120-123 | one cut before the next section line keeps the loop state and shortens the remaining lines |
| AnnotatedFileParser.SplitLast | tempto-core/src/main/java/io/prestodb/tempto/internal/convention/AnnotatedFileParser.java:125-129 | the remaining lines become the last section (or the only one, when the input is empty) and the result has the splitSections shape |
| AnnotatedFileParser.SplitOfUnique | tempto-core/src/main/java/io/prestodb/tempto/internal/convention/AnnotatedFileParser.java:116-130 | the cut splitSections makes is the only one with its shape, so the sections ParseFile parses are determined by the lines |
| AnnotatedFileParser.FilterContent | tempto-core/src/main/java/io/prestodb/tempto/internal/convention/AnnotatedFileParser.java:145-152 | the content is never longer than the section |
| AnnotatedFileParser.ParseSection | tempto-core/src/main/java/io/prestodb/tempto/internal/convention/AnnotatedFileParser.java:99-114 | the loop of property merges computes exactly the section parse: properties merged line by line, filtered content, name from the "name" key |
| AnnotatedFileParser.ParseFile | tempto-core/src/main/java/io/prestodb/tempto/internal/convention/AnnotatedFileParser.java:90-97 | the file is cut into sections the splitSections way, and it parses exactly when every section parses; the results are then the parses of the sections, in order, each keeping its lines; otherwise the first section that fails decides the error (IllegalArgument or IllegalState) |
| AnnotatedFileParser.ParseSections | tempto-core/src/main/java/io/prestodb/tempto/internal/convention/AnnotatedFileParser.java:96 | the sections parse exactly when each one does; the results are then the parses of the sections, in order; otherwise the error is that of the first section that fails (IllegalArgument or IllegalState) |
| AnnotatedFileParser.ParsedAllLines | tempto-core/src/main/java/io/prestodb/tempto/internal/convention/AnnotatedFileParser.java:113 | the results keep the section lines they were parsed from |
| AnnotatedFileParser.SectionPropertiesErrors | tempto-core/src/main/java/io/prestodb/tempto/internal/convention/AnnotatedFileParser.java:102-109 | merging properties fails only with IllegalArgument (a malformed header) or IllegalState (a differing key) |
| AnnotatedFileParser.SplitPropertiesErrors | tempto-core/src/main/java/io/prestodb/tempto/internal/convention/AnnotatedFileParser.java:159-172 | a properties line fails to parse only with IllegalArgument |
| AnnotatedFileParser.ParsedSectionErrors | tempto-core/src/main/java/io/prestodb/tempto/internal/convention/AnnotatedFileParser.java:99-114 | parseSection fails only with IllegalArgument or IllegalState |
| AnnotatedFileParser.SectionPropertiesSound | tempto-core/src/main/java/io/prestodb/tempto/internal/convention/AnnotatedFileParser.java:102-109 | the merged properties extend the starting map and contain every property line's entries |
| AnnotatedFileParser.SectionPropertiesComplete | tempto-core/src/main/java/io/prestodb/tempto/internal/convention/AnnotatedFileParser.java:102-109 | every merged key comes from the starting map or from some property line |
| AnnotatedFileParser.ConflictingLinesFail | tempto-core/src/main/java/io/prestodb/tempto/internal/convention/AnnotatedFileParser.java:105-106 | two property lines that give one key different values make the merge fail |
| AnnotatedFileParser.ConsistentLinesMerge | tempto-core/src/main/java/io/prestodb/tempto/internal/convention/AnnotatedFileParser.java:102-109 | when every property line parses and no line contradicts the others, the merge succeeds |
| AnnotatedFileParser.SectionName | tempto-core/src/main/java/io/prestodb/tempto/internal/convention/AnnotatedFileParser.java:112-113 | the section name is the "name" property and the section keeps its original lines |
| AnnotatedFileParser.FilterContentAppend | tempto-core/src/main/java/io/prestodb/tempto/internal/convention/AnnotatedFileParser.java:145-152 | filtering distributes over concatenation, so order is preserved |
| AnnotatedFileParser.FilterContentLines | tempto-core/src/main/java/io/prestodb/tempto/internal/convention/AnnotatedFileParser.java:145-152 | every content line is the transformed form of a kept (non-special, non-blank) line, and every kept line appears transformed |
| AnnotatedFileParser.UnescapeOne | tempto-core/src/main/java/io/prestodb/tempto/internal/convention/AnnotatedFileParser.java:154-157 | exactly one leading backslash is removed, and a line without one is unchanged |
| AnnotatedFileParser.TransformLineNewlines | tempto-core/src/main/java/io/prestodb/tempto/internal/convention/AnnotatedFileParser.java:149-150 | the newline-separated pieces of a transformed line are the pieces of the unescaped line between literal "\n" markers |
| AnnotatedFileParser.ContentRoundTrip | tempto-core/src/main/java/io/prestodb/tempto/internal/convention/AnnotatedFileParser.java:242-245 | for content lines without newlines, getContent (a join with '\n') splits back into exactly those lines; no lines give "" |
| AnnotatedFileParser.SingleLineRoundTrip | tempto-core/src/main/java/io/prestodb/tempto/internal/convention/AnnotatedFileParser.java:255-258 | for content lines without spaces, getContentAsSingleLine (a join with ' ') splits back into exactly those lines; no lines give "" |
| HeaderFileParser.FilterContent | test-framework-core/src/main/java/com/teradata/test/internal/convention/HeaderFileParser.java:81-87 | the content is never longer than the input and holds no "--" line and no blank line |
| HeaderFileParser.FilterContentAppend | test-framework-core/src/main/java/com/teradata/test/internal/convention/HeaderFileParser.java:81-87 | filtering distributes over concatenation, so relative order is preserved |
| HeaderFileParser.FilterContentMembers | test-framework-core/src/main/java/com/teradata/test/internal/convention/HeaderFileParser.java:83-85 | a line is in the content exactly when it is in the input, does not start with "--" and is not blank |
| HeaderFileParser.FilterContentIdempotent | test-framework-core/src/main/java/com/teradata/test/internal/convention/HeaderFileParser.java:81-87 | filtering twice is filtering once |
| HeaderFileParser.NoHeader | test-framework-core/src/main/java/com/teradata/test/internal/convention/HeaderFileParser.java:59-75 | without a "--" first line (or with no lines at all) the properties are empty and every line is a content candidate; empty input gives empty content |
| HeaderFileParser.HeaderRoundTrip | test-framework-core/src/main/java/com/teradata/test/internal/convention/HeaderFileParser.java:59-75 | a "--" header written from distinct key/value pairs is read back as exactly those properties, and the content is the filtered body without the header |
| HeaderFileParser.ContentRoundTrip | test-framework-core/src/main/java/com/teradata/test/internal/convention/HeaderFileParser.java:124-127 | getContent joins with a single space, so content lines without spaces split back out of it |
| SqlDescriptors.OfSection | tempto-core/src/main/java/io/prestodb/tempto/internal/convention/SqlDescriptor.java:39-42 | the one-argument constructor keeps the section and uses an empty base-property map |
| SqlDescriptors.GetPropertyValue | tempto-core/src/main/java/io/prestodb/tempto/internal/convention/SqlDescriptor.java:85-93 | a value is present exactly when the section or the base properties hold the key |
| SqlDescriptors.GetPropertyValues | tempto-core/src/main/java/io/prestodb/tempto/internal/convention/SqlDescriptor.java:65-78 | the list built with two addAll calls is the section's split values followed by the base's |
| SqlDescriptors.GetPropertyValuesSet | tempto-core/src/main/java/io/prestodb/tempto/internal/convention/SqlDescriptor.java:80-83 | the set holds exactly the elements of getPropertyValues |
| SqlDescriptors.PropertyPrecedence | tempto-core/src/main/java/io/prestodb/tempto/internal/convention/SqlDescriptor.java:85-93 | the section's value overrides the base; the base value is used only when the section lacks the key; a key absent from both gives empty |
| SqlDescriptors.OfSectionProperties | tempto-core/src/main/java/io/prestodb/tempto/internal/convention/SqlDescriptor.java:39-42 | with the empty base map, getPropertyValue is the section's property and getPropertyValues its split value or nothing |
| SqlDescriptors.HeaderValuesClean | tempto-core/src/main/java/io/prestodb/tempto/internal/convention/SqlDescriptor.java:34 | every value split from a header is non-empty, trimmed and comma-free |
| SqlDescriptors.HeaderValuesJoin | tempto-core/src/main/java/io/prestodb/tempto/internal/convention/SqlDescriptor.java:34 | clean values joined with commas split back into exactly those values |
| SqlDescriptors.PropertyValuesClean | tempto-core/src/main/java/io/prestodb/tempto/internal/convention/SqlDescriptor.java:65-78 | every listed value is non-empty, trimmed and comma-free |
| SqlDescriptors.PropertyValuesBoth | tempto-core/src/main/java/io/prestodb/tempto/internal/convention/SqlDescriptor.java:65-78 | a property set in both places lists the section's values first, then the base's |
| SqlQueryDescriptors.GetDatabaseName | tempto-core/src/main/java/io/prestodb/tempto/internal/convention/SqlQueryDescriptor.java:58-61 | the "database" property when present, otherwise DEFAULT_DB_NAME |
| SqlQueryDescriptors.ParseHandles | tempto-core/src/main/java/io/prestodb/tempto/internal/convention/SqlQueryDescriptor.java:63-68 | succeeds exactly when every value parses as a table handle, and then gives each value's handle in order; failures are IllegalArgument |
| SqlQueryDescriptors.GetTableDefinitionHandles | tempto-core/src/main/java/io/prestodb/tempto/internal/convention/SqlQueryDescriptor.java:63-68 | succeeds exactly when every "tables" value parses, and the set holds exactly the parsed handles |
| SqlQueryDescriptors.ParseMutableTableValue | tempto-core/src/main/java/io/prestodb/tempto/internal/convention/SqlQueryDescriptor.java:75-91 | a malformed entry fails only with IllegalState (too many fields) or IllegalArgument (unknown state or bad table name) |
| SqlQueryDescriptors.GetMutableTableDescriptors | tempto-core/src/main/java/io/prestodb/tempto/internal/convention/SqlQueryDescriptor.java:70-95 | the loop with its duplicate check computes the descriptor list of the "mutable_tables" values |
| SqlQueryDescriptors.GetTestGroups | tempto-core/src/main/java/io/prestodb/tempto/internal/convention/SqlQueryDescriptor.java:97-100 | a group is in the set exactly when it is one of the "groups" values |
| SqlQueryDescriptors.GetRequirementClassNames | tempto-core/src/main/java/io/prestodb/tempto/internal/convention/SqlQueryDescriptor.java:102-105 | a class name is in the set exactly when it is one of the "requires" values |
| SqlQueryDescriptors.DescriptorsSpec | tempto-core/src/main/java/io/prestodb/tempto/internal/convention/SqlQueryDescriptor.java:74-92 | the descriptors succeed exactly when every entry parses and no two give the same table handle, and then extend the accumulator with one descriptor per entry in order |
| SqlQueryDescriptors.MutableTablesInOrder | tempto-core/src/main/java/io/prestodb/tempto/internal/convention/SqlQueryDescriptor.java:70-95 | from an empty list: success exactly when every entry parses with distinct handles, and then one descriptor per entry, in order |
| SqlQueryDescriptors.DuplicateRejected | tempto-core/src/main/java/io/prestodb/tempto/internal/convention/SqlQueryDescriptor.java:85-89 | two entries naming the same table handle make the whole list fail |
| SqlQueryDescriptors.BareEntry | tempto-core/src/main/java/io/prestodb/tempto/internal/convention/SqlQueryDescriptor.java:80-83 | a bare name "def" is table definition "def" in state LOADED named "def" |
| SqlQueryDescriptors.FullEntry | tempto-core/src/main/java/io/prestodb/tempto/internal/convention/SqlQueryDescriptor.java:80-83 | "def\|state\|name" takes its state from the upper-cased state text (unknown ones fail with IllegalArgument) and its handle from the parsed name |
| SqlQueryDescriptors.TooManyFields | tempto-core/src/main/java/io/prestodb/tempto/internal/convention/SqlQueryDescriptor.java:78 | more than three '\|'-separated fields fail with IllegalState |
| SqlResultDescriptors.TypesOf | tempto-core/src/main/java/io/prestodb/tempto/internal/convention/SqlResultDescriptor.java:90-93 | succeeds exactly when every name is a JDBCType constant, and then gives one type per name, in order, whose name is that name; otherwise IllegalArgument |
| SqlResultDescriptors.NewSqlResultDescriptor | tempto-core/src/main/java/io/prestodb/tempto/internal/convention/SqlResultDescriptor.java:80-94 | without a "types" property there are no expected types; with one, construction succeeds exactly when every '\|'-separated name is known, and the expected types are those names' types in order |
| SqlResultDescriptors.Flag | tempto-core/src/main/java/io/prestodb/tempto/internal/convention/SqlResultDescriptor.java:137-155 | a flag is true exactly when its property is present and equals "true" ignoring case (Boolean.valueOf with default "false") |
| SqlResultDescriptors.ColumnDelimiter | tempto-core/src/main/java/io/prestodb/tempto/internal/convention/SqlResultDescriptor.java:157-160 | the "delimiter" property when present, otherwise "\|" |
| SqlResultDescriptors.LineRowWidth | tempto-core/src/main/java/io/prestodb/tempto/internal/convention/SqlResultDescriptor.java:107-110 | every row mapped from a line has one value per column type |
| SqlResultDescriptors.LineRowsWidth | tempto-core/src/main/java/io/prestodb/tempto/internal/convention/SqlResultDescriptor.java:107-110 | all rows of the lines have the same width |
| SqlResultDescriptors.FirstCells | tempto-core/src/main/java/io/prestodb/tempto/internal/convention/SqlResultDescriptor.java:114-116 | one text per row: String.valueOf of the row's first value |
| SqlResultDescriptors.Rows | tempto-core/src/main/java/io/prestodb/tempto/internal/convention/SqlResultDescriptor.java:96-121 | an empty delimiter is an IllegalArgument |
| SqlResultDescriptors.GetRows | tempto-core/src/main/java/io/prestodb/tempto/internal/convention/SqlResultDescriptor.java:96-121 | the loop over the content lines computes the rows of the descriptor |
| SqlResultDescriptors.LineRowsOk | tempto-core/src/main/java/io/prestodb/tempto/internal/convention/SqlResultDescriptor.java:107-110 | the lines give rows exactly when every line converts |
| SqlResultDescriptors.LineRowsValues | tempto-core/src/main/java/io/prestodb/tempto/internal/convention/SqlResultDescriptor.java:107-110 | the rows are the accumulator followed by one row per line, in order |
| SqlResultDescriptors.LineRowsPerLine | tempto-core/src/main/java/io/prestodb/tempto/internal/convention/SqlResultDescriptor.java:107-110 | rows exist exactly when every line converts, and then there is one row per line, in order, of the given width |
| SqlResultDescriptors.LineRowsFirstFailure | tempto-core/src/main/java/io/prestodb/tempto/internal/convention/SqlResultDescriptor.java:107-110 | the first line that does not convert decides the error |
| SqlResultDescriptors.RowsPerLine | tempto-core/src/main/java/io/prestodb/tempto/internal/convention/SqlResultDescriptor.java:107-120 | without joinAllRowsToOne the rows exist exactly when every line converts, one per line, in order |
| SqlResultDescriptors.RowsFirstFailure | tempto-core/src/main/java/io/prestodb/tempto/internal/convention/SqlResultDescriptor.java:107-110 | with or without joining, the first unconvertible line decides the error |
| SqlResultDescriptors.JoinNeedsOneColumn | tempto-core/src/main/java/io/prestodb/tempto/internal/convention/SqlResultDescriptor.java:112-113 | joinAllRowsToOne with other than one column is an IllegalState |
| SqlResultDescriptors.JoinedRows | tempto-core/src/main/java/io/prestodb/tempto/internal/convention/SqlResultDescriptor.java:112-117 | joinAllRowsToOne gives one row holding the rows' first values as text joined with '\n' |
| SqlResultDescriptors.LineRowIsMapToRow | tempto-core/src/main/java/io/prestodb/tempto/internal/convention/SqlResultDescriptor.java:108-109 | the row of a line is mapToRow of the line's parsed cells |
| SqlResultDescriptors.FlagsDefault | tempto-core/src/main/java/io/prestodb/tempto/internal/convention/SqlResultDescriptor.java:44-49 | without properties every flag is false and the delimiter is "\|" |
| SqlResultDescriptors.TrailingSplit | tempto-core/src/main/java/io/prestodb/tempto/internal/convention/SqlResultDescriptor.java:128-135 | a line written as cells each followed by the delimiter splits into the cells plus one empty piece and ends with the delimiter after trimming |
| SqlResultDescriptors.ParseLineTrailing | tempto-core/src/main/java/io/prestodb/tempto/internal/convention/SqlResultDescriptor.java:128-135 | such a line parses back into exactly its cells (the trailing empty piece is dropped) |
| SqlResultDescriptors.ParseLineEndingWith | tempto-core/src/main/java/io/prestodb/tempto/internal/convention/SqlResultDescriptor.java:131-133 | when the trimmed line ends with the delimiter the last piece is dropped |
| SqlResultDescriptors.ValueOfName | tempto-core/src/main/java/io/prestodb/tempto/internal/convention/SqlResultDescriptor.java:92 | JDBCType.valueOf of a constant's name is that constant |
| SqlResultDescriptors.TypesOfNames | tempto-core/src/main/java/io/prestodb/tempto/internal/convention/SqlResultDescriptor.java:90-93 | the names of a list of types parse back into the same types |
| SqlResultDescriptors.TypesRoundTrip | tempto-core/src/main/java/io/prestodb/tempto/internal/convention/SqlResultDescriptor.java:88-93 | a "types" header written by joining type names with '\|' parses back into the same types |
| JdbcDataFileDescriptors.NewJdbcDataFileDescriptor | tempto-core/src/main/java/io/prestodb/tempto/internal/convention/tabledefinitions/JdbcDataFileDescriptor.java:45-58 | a missing "types" property is an IllegalArgument; otherwise construction succeeds exactly when every '\|'-separated name is a known type, and the column types are those names' types in order, over a section with no base properties |
| JdbcDataFileDescriptors.DataRows | tempto-core/src/main/java/io/prestodb/tempto/internal/convention/tabledefinitions/JdbcDataFileDescriptor.java:60-77 | an empty delimiter is an IllegalArgument |
| JdbcDataFileDescriptors.GetRows | tempto-core/src/main/java/io/prestodb/tempto/internal/convention/tabledefinitions/JdbcDataFileDescriptor.java:60-77 | the loop over the content lines computes the rows of the data file |
| JdbcDataFileDescriptors.MissingTypes | tempto-core/src/main/java/io/prestodb/tempto/internal/convention/tabledefinitions/JdbcDataFileDescriptor.java:53-54 | without a "types" property construction fails with IllegalArgument |
| JdbcDataFileDescriptors.ColumnTypesRoundTrip | tempto-core/src/main/java/io/prestodb/tempto/internal/convention/tabledefinitions/JdbcDataFileDescriptor.java:51-58 | a "types" header joined from type names gives back exactly those column types |
| JdbcDataFileDescriptors.DataRowsPerLine | tempto-core/src/main/java/io/prestodb/tempto/internal/convention/tabledefinitions/JdbcDataFileDescriptor.java:60-86 | the rows exist exactly when every content line's parsed cells map to a row, and then there is one row per line, in order, each with one value per column type, equal to the mapped row of that line |
| JdbcDataFileDescriptors.TrailingDelimiterRow | tempto-core/src/main/java/io/prestodb/tempto/internal/convention/tabledefinitions/JdbcDataFileDescriptor.java:79-86 | a line written with a trailing delimiter maps to the row of exactly its cells |
| JdbcDataFileDescriptors.DataFileDefaults | tempto-core/src/main/java/io/prestodb/tempto/internal/convention/tabledefinitions/JdbcDataFileDescriptor.java:34-35 | without "delimiter" and "trimValues" properties the delimiter is "\|" and values are not trimmed |
| TableHandles.TableHandle.WithName | tempto-core/src/main/java/io/prestodb/tempto/fulfillment/table/TableHandle.java:68-71 | a valid handle with the new name and the same database and schema, not requiring no schema |
| TableHandles.TableHandle.InDatabase | tempto-core/src/main/java/io/prestodb/tempto/fulfillment/table/TableHandle.java:73-76 | a valid handle in the given database with the same schema and name |
| TableHandles.TableHandle.InSchema | tempto-core/src/main/java/io/prestodb/tempto/fulfillment/table/TableHandle.java:78-81 | a valid handle in the given schema with the same database and name |
| TableHandles.TableHandle.WithNoSchema | tempto-core/src/main/java/io/prestodb/tempto/fulfillment/table/TableHandle.java:83-86 | a valid handle with no schema that requires none, same database and name |
| TableHandles.Named | tempto-core/src/main/java/io/prestodb/tempto/fulfillment/table/TableHandle.java:28-31 | tableHandle(name): a valid handle with only a name |
| TableHandles.ParseValid | tempto-core/src/main/java/io/prestodb/tempto/fulfillment/table/TableHandle.java:33-46 | every parsed handle satisfies the constructor check and does not require no schema |
| TableHandles.ParseBareName | tempto-core/src/main/java/io/prestodb/tempto/fulfillment/table/TableHandle.java:43-45 | a value without '.' is a bare table name |
| TableHandles.ParseQualified | tempto-core/src/main/java/io/prestodb/tempto/fulfillment/table/TableHandle.java:35-42 | "schema.name" gives that schema and name; "db.schema.name" gives that database, schema and name |
| TableHandles.ParseTooManyDots | tempto-core/src/main/java/io/prestodb/tempto/fulfillment/table/TableHandle.java:37 | more than two dots is an IllegalArgument |
| TableHandles.ParseQualifiedRoundTrip | tempto-core/src/main/java/io/prestodb/tempto/fulfillment/table/TableHandle.java:33-46 | a handle whose parts contain no '.' is parsed back from its dotted text |
| TableHandles.LikeHandle | tempto-core/src/main/java/io/prestodb/tempto/fulfillment/table/hive/HiveTableDefinition.java:125-128 | the handle like() starts from keeps the name and the schema and drops the database |
| TablesState.Matching | tempto-core/src/main/java/io/prestodb/tempto/fulfillment/table/TablesState.java:58-60 | the filtered tables are among the given ones and each matches the handle |
| TablesState.Get | tempto-core/src/main/java/io/prestodb/tempto/fulfillment/table/TablesState.java:56-74 | a table is returned only when it is one of the state's tables and matches the handle; otherwise IllegalArgument |
| TablesState.GetTableNames | tempto-core/src/main/java/io/prestodb/tempto/fulfillment/table/TablesState.java:76-82 | at most one name per table |
| TablesState.GetDatabaseNames | tempto-core/src/main/java/io/prestodb/tempto/fulfillment/table/TablesState.java:115-120 | a database is listed exactly when some table lives in it |
| TablesState.MatchesSpec | tempto-core/src/main/java/io/prestodb/tempto/fulfillment/table/TablesState.java:90-113 | matches, flattened: the name equal ignoring case, the handle's schema present on the table and equal ignoring case, no table schema for a no-schema handle, the handle's database equal ignoring case |
| TablesState.BareNameMatches | tempto-core/src/main/java/io/prestodb/tempto/fulfillment/table/TablesState.java:51-54 | get(name) matches exactly the tables with that name ignoring case, whatever their schema and database |
| TablesState.NoSchemaHandle | tempto-core/src/main/java/io/prestodb/tempto/fulfillment/table/TablesState.java:108-110 | a no-schema handle never matches a table that has a schema |
| TablesState.MatchingMembers | tempto-core/src/main/java/io/prestodb/tempto/fulfillment/table/TablesState.java:58-60 | every matching table is kept by the filter |
| TablesState.MatchingEmpty | tempto-core/src/main/java/io/prestodb/tempto/fulfillment/table/TablesState.java:58-60 | no matching table gives an empty filter result |
| TablesState.MatchingOnly | tempto-core/src/main/java/io/prestodb/tempto/fulfillment/table/TablesState.java:58-60 | exactly one matching table gives exactly that table |
| TablesState.MatchingTwo | tempto-core/src/main/java/io/prestodb/tempto/fulfillment/table/TablesState.java:58-60 | two matching tables give at least two results |
| TablesState.GetUnique | tempto-core/src/main/java/io/prestodb/tempto/fulfillment/table/TablesState.java:65-66 | exactly one matching table: get returns it |
| TablesState.GetNone | tempto-core/src/main/java/io/prestodb/tempto/fulfillment/table/TablesState.java:63-64 | no matching table: IllegalArgument |
| TablesState.GetAmbiguous | tempto-core/src/main/java/io/prestodb/tempto/fulfillment/table/TablesState.java:67-72 | two matching tables: IllegalArgument |
| TablesState.GetTableNamesAppend | tempto-core/src/main/java/io/prestodb/tempto/fulfillment/table/TablesState.java:76-82 | the names of a concatenation are the concatenated names (the filter keeps order) |
| TablesState.GetTableNamesMembers | tempto-core/src/main/java/io/prestodb/tempto/fulfillment/table/TablesState.java:76-82 | a name is listed exactly when some table in the database (ignoring case) has it |
| TablesState.ToNameMapContents | tempto-core/src/main/java/io/prestodb/tempto/fulfillment/table/TablesState.java:84-88 | a successful map sends every listed name to its name in the database and has no other keys beyond the starting ones |
| TablesState.ToNameMapKeeps | tempto-core/src/main/java/io/prestodb/tempto/fulfillment/table/TablesState.java:84-88 | entries already in the map are kept |
| TablesState.ToNameMapDuplicate | tempto-core/src/main/java/io/prestodb/tempto/fulfillment/table/TablesState.java:84-88 | a name listed twice is an IllegalStateException from toMap |
| TablesState.ToNameMapPresent | tempto-core/src/main/java/io/prestodb/tempto/fulfillment/table/TablesState.java:84-88 | a name already present is an IllegalStateException |
| LegacyTablesState.HoldersOf | tempto-core/src/main/java/com/teradata/tempto/fulfillment/table/TablesState.java:57-60 | a database is a holder exactly when it has a table of that name |
| LegacyTablesState.Get | tempto-core/src/main/java/com/teradata/tempto/fulfillment/table/TablesState.java:50-70 | a returned table is held under that name by some database |
| LegacyTablesState.GetNameInDatabaseMap | tempto-core/src/main/java/com/teradata/tempto/fulfillment/table/TablesState.java:72-80 | an unknown database gives the empty map; otherwise the keys are that database's table names, each sent to its name in the database |
| LegacyTablesState.GetInDatabase | tempto-core/src/main/java/com/teradata/tempto/fulfillment/table/TablesState.java:50-56 | with a database: an unknown database is an IllegalStateException (checkState at line 84), a missing name an IllegalArgumentException, otherwise that database's table |
| LegacyTablesState.GetUniqueHolder | tempto-core/src/main/java/com/teradata/tempto/fulfillment/table/TablesState.java:57-66 | without a database, a single holder gives its table |
| LegacyTablesState.GetNoHolder | tempto-core/src/main/java/com/teradata/tempto/fulfillment/table/TablesState.java:62-64 | without a database, no holder is an IllegalArgumentException |
| LegacyTablesState.GetTwoHolders | tempto-core/src/main/java/com/teradata/tempto/fulfillment/table/TablesState.java:67-68 | without a database, two holders is an IllegalArgumentException |
| TableDefinitions.KeyOf | tempto-core/src/main/java/io/prestodb/tempto/fulfillment/table/TableDefinitionsRepository.java:124-127 | the repository key is the handle's name and schema; the database plays no part |
| TableDefinitions.Lookup | tempto-core/src/main/java/io/prestodb/tempto/fulfillment/table/TableDefinitionsRepository.java:111-122 | fails, with IllegalStateException, exactly when neither the handle's key nor the bare-name key is registered |
| TableDefinitions.TableDefinitionsRepository.constructor | tempto-core/src/main/java/io/prestodb/tempto/fulfillment/table/TableDefinitionsRepository.java:94-96 | a new repository is empty |
| TableDefinitions.TableDefinitionsRepository.Register | tempto-core/src/main/java/io/prestodb/tempto/fulfillment/table/TableDefinitionsRepository.java:103-109 | a key already present is an IllegalStateException and changes nothing; otherwise the definition is added under its key and returned |
| TableDefinitions.TableDefinitionsRepository.RegisterEach | tempto-core/src/main/java/io/prestodb/tempto/fulfillment/table/TableDefinitionsRepository.java:98-101 | registering in order succeeds exactly when RegisterAll does, and leaves its map |
| TableDefinitions.TableDefinitionsRepository.Get | tempto-core/src/main/java/io/prestodb/tempto/fulfillment/table/TableDefinitionsRepository.java:111-122 | get is Lookup on the current definitions |
| TableDefinitions.LookupExact | tempto-core/src/main/java/io/prestodb/tempto/fulfillment/table/TableDefinitionsRepository.java:115-116 | the handle's own key wins |
| TableDefinitions.LookupFallback | tempto-core/src/main/java/io/prestodb/tempto/fulfillment/table/TableDefinitionsRepository.java:118-119 | otherwise the bare-name key is used |
| TableDefinitions.LookupIgnoresDatabase | tempto-core/src/main/java/io/prestodb/tempto/fulfillment/table/TableDefinitionsRepository.java:124-127 | the handle's database never changes the lookup |
| TableDefinitions.RegisterThenLookup | tempto-core/src/main/java/io/prestodb/tempto/fulfillment/table/TableDefinitionsRepository.java:103-122 | a registered definition is found again by its name and schema, in any database |
| TableDefinitions.RegisterKeepsOthers | tempto-core/src/main/java/io/prestodb/tempto/fulfillment/table/TableDefinitionsRepository.java:103-122 | registering does not change the lookup of a handle whose own key was registered before |
| TableDefinitions.RegisterAllDuplicate | tempto-core/src/main/java/io/prestodb/tempto/fulfillment/table/TableDefinitionsRepository.java:98-109 | two definitions with the same key fail |
| TableDefinitions.RegisterAllPresent | tempto-core/src/main/java/io/prestodb/tempto/fulfillment/table/TableDefinitionsRepository.java:98-109 | a definition whose key is already registered fails |
| TableDefinitions.RegisterAllFinds | tempto-core/src/main/java/io/prestodb/tempto/fulfillment/table/TableDefinitionsRepository.java:98-122 | distinct new keys all register, and each definition is then found by its own handle |
| TableDefinitions.RegisterAllKeeps | tempto-core/src/main/java/io/prestodb/tempto/fulfillment/table/TableDefinitionsRepository.java:98-109 | earlier registrations are kept |
| TableManagerDispatcher.ManagersOf | tempto-core/src/main/java/io/prestodb/tempto/internal/fulfillment/table/DefaultTableManagerDispatcher.java:43-45 | the managers grouped under a definition class all manage that class, in the map's order |
| TableManagerDispatcher.DefaultTableManagerDispatcher.constructor | tempto-core/src/main/java/io/prestodb/tempto/internal/fulfillment/table/DefaultTableManagerDispatcher.java:40-47 | a class is a key of the multimap exactly when some manager manages it, and its list is those managers (the entries, like the keys of the Java map, name each database once) |
| TableManagerDispatcher.DefaultTableManagerDispatcher.GetTableManagerFor | tempto-core/src/main/java/io/prestodb/tempto/internal/fulfillment/table/DefaultTableManagerDispatcher.java:49-75 | getTableManagerFor is Dispatch on the current state |
| TableManagerDispatcher.DefaultTableManagerDispatcher.GetAllTableManagers | tempto-core/src/main/java/io/prestodb/tempto/internal/fulfillment/table/DefaultTableManagerDispatcher.java:112-116 | exactly the managers of the database map |
| TableManagerDispatcher.Dispatch | tempto-core/src/main/java/io/prestodb/tempto/internal/fulfillment/table/DefaultTableManagerDispatcher.java:49-75 | a returned manager manages the definition's class; every failure is an IllegalStateException |
| TableManagerDispatcher.CheckTableDefinitionType | tempto-core/src/main/java/io/prestodb/tempto/internal/fulfillment/table/DefaultTableManagerDispatcher.java:77-89 | the manager is returned exactly when it manages the requested class; otherwise IllegalStateException |
| TableManagerDispatcher.AddToGroup | tempto-core/src/main/java/io/prestodb/tempto/internal/fulfillment/table/DefaultTableManagerDispatcher.java:43-45 | adding one manager to its class's list keeps the grouping of the managers seen so far |
| TableManagerDispatcher.ManagersOfSnoc | tempto-core/src/main/java/io/prestodb/tempto/internal/fulfillment/table/DefaultTableManagerDispatcher.java:43-45 | one more manager extends its own class's list only |
| TableManagerDispatcher.DispatchUnmanaged | tempto-core/src/main/java/io/prestodb/tempto/internal/fulfillment/table/DefaultTableManagerDispatcher.java:53-55 | a class with no manager is an IllegalStateException |
| TableManagerDispatcher.DispatchSingle | tempto-core/src/main/java/io/prestodb/tempto/internal/fulfillment/table/DefaultTableManagerDispatcher.java:57-60 | a class with one manager gets it, whatever the handle |
| TableManagerDispatcher.DispatchByDatabase | tempto-core/src/main/java/io/prestodb/tempto/internal/fulfillment/table/DefaultTableManagerDispatcher.java:62-67 | several managers and a database in the handle: an unknown database fails, otherwise that database's manager is returned exactly when it manages the class |
| TableManagerDispatcher.DispatchAmbiguous | tempto-core/src/main/java/io/prestodb/tempto/internal/fulfillment/table/DefaultTableManagerDispatcher.java:69-74 | several managers and no database: IllegalStateException |
| Requirements.Wrap | tempto-core/src/main/java/io/prestodb/tempto/Requirements.java:56-66 | a composite argument is kept as it is; a plain requirement is wrapped in a singleton composite |
| Requirements.WrapAll | tempto-core/src/main/java/io/prestodb/tempto/Requirements.java:56-66 | one wrapped composite per argument, in order |
| Requirements.Compose | tempto-core/src/main/java/io/prestodb/tempto/Requirements.java:39-42 | one branch holding every wrapped argument |
| Requirements.AllOf | tempto-core/src/main/java/io/prestodb/tempto/Requirements.java:49-54 | one branch per wrapped argument, each holding only it |
| Requirements.GetRequirementsSets | tempto-core/src/main/java/io/prestodb/tempto/Requirements.java:94-102 | the expansion equals RequirementsSets: a singleton gives one set, a multi composite the union of its branches' expansions |
| Requirements.ExpandBranch | tempto-core/src/main/java/io/prestodb/tempto/Requirements.java:104-111 | a branch's expansion starts from {{}} and folds Step over its components |
| Requirements.ExpandStep | tempto-core/src/main/java/io/prestodb/tempto/Requirements.java:113-126 | every union of an accumulated set with a set of the next component |
| Requirements.AddUnions | tempto-core/src/main/java/io/prestodb/tempto/Requirements.java:116-124 | the inner loop adds the unions of one accumulated set with every set of the component |
| Requirements.UnionsAddOne | tempto-core/src/main/java/io/prestodb/tempto/Requirements.java:117-123 | one more component set adds one union |
| Requirements.StepAddOne | tempto-core/src/main/java/io/prestodb/tempto/Requirements.java:116-124 | one more accumulated set adds its unions |
| Requirements.SingletonSets | tempto-core/src/main/java/io/prestodb/tempto/Requirements.java:73-76 | a singleton composite expands to the one set holding its requirement |
| Requirements.StepFromEmpty | tempto-core/src/main/java/io/prestodb/tempto/Requirements.java:106-108 | the first component's sets are taken unchanged |
| Requirements.StepCommutes | tempto-core/src/main/java/io/prestodb/tempto/Requirements.java:107-109 | the order of a branch's components does not change the expansion |
| Requirements.UnionsSize | tempto-core/src/main/java/io/prestodb/tempto/Requirements.java:117-123 | the unions with one set are at most as many as the component's sets |
| Requirements.StepSize | tempto-core/src/main/java/io/prestodb/tempto/Requirements.java:113-126 | a step yields at most the product of the two counts |
| Requirements.BranchesUnion | tempto-core/src/main/java/io/prestodb/tempto/Requirements.java:97-100 | a set is in the expansion exactly when some branch's expansion holds it |
| Requirements.ExpandPlains | tempto-core/src/main/java/io/prestodb/tempto/Requirements.java:104-111 | a branch of plain requirements expands to the single set of them |
| Requirements.ComposePlains | tempto-core/src/main/java/io/prestodb/tempto/Requirements.java:39-42 | compose of plain requirements is AND: exactly one set, holding them all |
| Requirements.ComposeNothing | tempto-core/src/main/java/io/prestodb/tempto/Requirements.java:39-42 | compose() expands to the one empty set |
| Requirements.AllOfBranches | tempto-core/src/main/java/io/prestodb/tempto/Requirements.java:49-54 | the first n branches of allOf of plain requirements give one singleton set each |
| Requirements.AllOfPlains | tempto-core/src/main/java/io/prestodb/tempto/Requirements.java:49-54 | allOf of plain requirements is OR: one singleton set per requirement; allOf() gives none |
| Requirements.CompositeAsIs | tempto-core/src/main/java/io/prestodb/tempto/Requirements.java:56-66 | a lone composite argument expands as it does, under compose and under allOf |
| Requirements.OneComponent | tempto-core/src/main/java/io/prestodb/tempto/Requirements.java:95-111 | a single branch with one component expands as that component |
| Requirements.ComposeTwo | tempto-core/src/main/java/io/prestodb/tempto/Requirements.java:39-42 | compose of two composites gives every union of a set of one with a set of the other |
| Requirements.AllOfTwo | tempto-core/src/main/java/io/prestodb/tempto/Requirements.java:49-54 | allOf of two composites gives the sets of either |
| Requirements.ComposeRepeated | tempto-core/src/main/java/io/prestodb/tempto/Requirements.java:41 | one composite passed twice: the sequence keeps both copies and the expansion gains a set that Java's identity-based set, keeping one copy, would not produce |
| HiveTableDefinitions.NewHiveTableDefinition | tempto-core/src/main/java/io/prestodb/tempto/fulfillment/table/hive/HiveTableDefinition.java:47-62 | the definition is built exactly when exactly one of data source and partitions is set and the template holds %NAME%; both or neither is IllegalArgument, a template never set NullPointer, a template without %NAME% IllegalArgument |
| HiveTableDefinitions.Unpartitioned | tempto-core/src/main/java/io/prestodb/tempto/fulfillment/table/hive/HiveTableDefinition.java:108-111 | hiveTableDefinition(handle, template, source) succeeds exactly when the template holds %NAME%, and is unpartitioned with that source |
| HiveTableDefinitions.GetDataSource | tempto-core/src/main/java/io/prestodb/tempto/fulfillment/table/hive/HiveTableDefinition.java:64-68 | the data source of an unpartitioned definition; IllegalState for a partitioned one |
| HiveTableDefinitions.GetPartitionDefinitions | tempto-core/src/main/java/io/prestodb/tempto/fulfillment/table/hive/HiveTableDefinition.java:70-74 | the partitions of a partitioned definition; IllegalState otherwise |
| HiveTableDefinitions.HiveTableDefinitionBuilder.constructor | tempto-core/src/main/java/io/prestodb/tempto/fulfillment/table/hive/HiveTableDefinition.java:152-155 | builder(name): a bare-name handle and nothing else set |
| HiveTableDefinitions.HiveTableDefinitionBuilder.From | tempto-core/src/main/java/io/prestodb/tempto/fulfillment/table/hive/HiveTableDefinition.java:142-150 | from(definition): every field of the definition |
| HiveTableDefinitions.HiveTableDefinitionBuilder.InDatabase | tempto-core/src/main/java/io/prestodb/tempto/fulfillment/table/hive/HiveTableDefinition.java:157-161 | only the handle changes, to the handle in that database |
| HiveTableDefinitions.HiveTableDefinitionBuilder.InSchema | tempto-core/src/main/java/io/prestodb/tempto/fulfillment/table/hive/HiveTableDefinition.java:163-167 | only the handle changes, to the handle in that schema |
| HiveTableDefinitions.HiveTableDefinitionBuilder.SetName | tempto-core/src/main/java/io/prestodb/tempto/fulfillment/table/hive/HiveTableDefinition.java:169-173 | only the handle changes, to one with that name |
| HiveTableDefinitions.HiveTableDefinitionBuilder.SetCreateTableDDLTemplate | tempto-core/src/main/java/io/prestodb/tempto/fulfillment/table/hive/HiveTableDefinition.java:175-179 | only the template changes |
| HiveTableDefinitions.HiveTableDefinitionBuilder.SetDataSource | tempto-core/src/main/java/io/prestodb/tempto/fulfillment/table/hive/HiveTableDefinition.java:181-185 | only the data source changes |
| HiveTableDefinitions.HiveTableDefinitionBuilder.AddPartition | tempto-core/src/main/java/io/prestodb/tempto/fulfillment/table/hive/HiveTableDefinition.java:207-214 | the partition is appended to the list, which starts empty when absent; nothing else changes |
| HiveTableDefinitions.HiveTableDefinitionBuilder.InjectStats | tempto-core/src/main/java/io/prestodb/tempto/fulfillment/table/hive/HiveTableDefinition.java:219-223 | only the inject-stats setting changes |
| HiveTableDefinitions.HiveTableDefinitionBuilder.Build | tempto-core/src/main/java/io/prestodb/tempto/fulfillment/table/hive/HiveTableDefinition.java:225-228 | build runs the constructor's checks on the fields set |
| HiveTableDefinitions.Like | tempto-core/src/main/java/io/prestodb/tempto/fulfillment/table/hive/HiveTableDefinition.java:123-132 | like(definition) succeeds exactly for an unpartitioned definition (getDataSource's IllegalState otherwise), with its name, schema, template and data source |
| HiveTableDefinitions.LikeRebuilds | tempto-core/src/main/java/io/prestodb/tempto/fulfillment/table/hive/HiveTableDefinition.java:123-132 | building what like() set gives a valid definition with the same template and data source |
| HiveTableDefinitions.MarkerNames | tempto-core/src/main/java/io/prestodb/tempto/fulfillment/table/hive/HiveTableDefinition.java:37-40 | the four placeholder names are marker names |
| HiveTableDefinitions.AddedTexts | tempto-core/src/main/java/io/prestodb/tempto/fulfillment/table/hive/HiveTableDefinition.java:84-91 | the texts getCreateTableDDL adds hold no '%' and the location clause opens with a space |
| HiveTableDefinitions.CreateTableDDLWithoutLocation | tempto-core/src/main/java/io/prestodb/tempto/fulfillment/table/hive/HiveTableDefinition.java:81-96 | without a location: %NAME% becomes the name and %EXTERNAL% is removed, and neither placeholder is left |
| HiveTableDefinitions.CreateTableDDLLocationMarker | tempto-core/src/main/java/io/prestodb/tempto/fulfillment/table/hive/HiveTableDefinition.java:85-89 | with a location and a %LOCATION% placeholder: the location fills it, %EXTERNAL% becomes " EXTERNAL ", and no placeholder is left |
| HiveTableDefinitions.CreateTableDDLLocationAppended | tempto-core/src/main/java/io/prestodb/tempto/fulfillment/table/hive/HiveTableDefinition.java:90-92 | with a location and no placeholder for it: " LOCATION '<location>'" is appended |
| HiveTableDefinitions.AddPartitionTemplate | tempto-core/src/main/java/io/prestodb/tempto/fulfillment/table/hive/HiveTableDefinition.java:239-242 | the ALTER TABLE template is three markers between fixed texts |
| HiveTableDefinitions.AddPartitionStatement | tempto-core/src/main/java/io/prestodb/tempto/fulfillment/table/hive/HiveTableDefinition.java:260-265 | getAddPartitionTableDDL is "ALTER TABLE <name> ADD PARTITION (<spec>) LOCATION '<location>'" |
| HiveTableDefinitions.FilledAddPartition | tempto-core/src/main/java/io/prestodb/tempto/fulfillment/table/hive/HiveTableDefinition.java:262-264 | the three replaces fill the template exactly once each |
| HiveTableDefinitions.ThreeMarkers | tempto-core/src/main/java/io/prestodb/tempto/fulfillment/table/hive/HiveTableDefinition.java:239-242 | a template of three markers between plain texts is well formed and renders as those pieces |
| HiveTableDefinitions.FillThreeMarkers | tempto-core/src/main/java/io/prestodb/tempto/fulfillment/table/hive/HiveTableDefinition.java:262-264 | replacing three distinct markers in turn puts each value in its marker's place |
| HiveTableDefinitions.BuiltIsValid | tempto-core/src/main/java/io/prestodb/tempto/fulfillment/table/hive/HiveTableDefinition.java:64-78 | a built definition answers getDataSource exactly when it has no partitions and getPartitionDefinitions exactly when it has them |
| LegacyHiveTableDefinitions.NewLegacyHiveTableDefinition | tempto-core/src/main/java/com/teradata/tempto/fulfillment/table/hive/HiveTableDefinition.java:42-57 | built exactly when exactly one of data source and partitions is set, the template holds %NAME%, and it holds %LOCATION% exactly when unpartitioned; a template never set is a NullPointerException, every other failure IllegalArgument |
| LegacyHiveTableDefinitions.LegacyUnpartitioned | tempto-core/src/main/java/com/teradata/tempto/fulfillment/table/hive/HiveTableDefinition.java:81-84 | succeeds exactly when the template holds both %NAME% and %LOCATION% |
| LegacyHiveTableDefinitions.LegacyGetDataSource | tempto-core/src/main/java/com/teradata/tempto/fulfillment/table/hive/HiveTableDefinition.java:59-63 | the data source of an unpartitioned definition; IllegalState otherwise |
| LegacyHiveTableDefinitions.LegacyGetPartitionDefinitions | tempto-core/src/main/java/com/teradata/tempto/fulfillment/table/hive/HiveTableDefinition.java:65-69 | the partitions of a partitioned definition; IllegalState otherwise |
| LegacyHiveTableDefinitions.LegacyHiveTableDefinitionBuilder.constructor | tempto-core/src/main/java/com/teradata/tempto/fulfillment/table/hive/HiveTableDefinition.java:86-89 | builder(): nothing set |
| LegacyHiveTableDefinitions.LegacyHiveTableDefinitionBuilder.SetName | tempto-core/src/main/java/com/teradata/tempto/fulfillment/table/hive/HiveTableDefinition.java:112-116 | only the name changes |
| LegacyHiveTableDefinitions.LegacyHiveTableDefinitionBuilder.SetCreateTableDDLTemplate | tempto-core/src/main/java/com/teradata/tempto/fulfillment/table/hive/HiveTableDefinition.java:118-122 | only the template changes |
| LegacyHiveTableDefinitions.LegacyHiveTableDefinitionBuilder.SetDataSource | tempto-core/src/main/java/com/teradata/tempto/fulfillment/table/hive/HiveTableDefinition.java:124-128 | only the data source changes |
| LegacyHiveTableDefinitions.LegacyHiveTableDefinitionBuilder.AddPartition | tempto-core/src/main/java/com/teradata/tempto/fulfillment/table/hive/HiveTableDefinition.java:150-156 | the partition is appended to the list, which starts empty when absent |
| LegacyHiveTableDefinitions.LegacyHiveTableDefinitionBuilder.Build | tempto-core/src/main/java/com/teradata/tempto/fulfillment/table/hive/HiveTableDefinition.java:158-161 | build runs the constructor's checks |
| LegacyHiveTableDefinitions.Like | tempto-core/src/main/java/com/teradata/tempto/fulfillment/table/hive/HiveTableDefinition.java:91-98 | like(definition) succeeds exactly for an unpartitioned definition, with its name, template and data source |
| LegacyHiveTableDefinitions.LegacyCreateTableDDL | tempto-core/src/main/java/com/teradata/tempto/fulfillment/table/hive/HiveTableDefinition.java:76-79 | getCreateTableDDL fills %NAME% and %LOCATION% and leaves neither placeholder |
| LegacyHiveTableDefinitions.LocationMarkerIffUnpartitioned | tempto-core/src/main/java/com/teradata/tempto/fulfillment/table/hive/HiveTableDefinition.java:50-56 | in a valid definition the template has a %LOCATION% marker exactly when it is unpartitioned, and always a %NAME% marker |
| LegacyHiveTableDefinitions.PartitionedIgnoresLocation | tempto-core/src/main/java/com/teradata/tempto/fulfillment/table/hive/HiveTableDefinition.java:76-79 | for a partitioned table the location has no effect on the DDL |
| LegacyHiveTableDefinitions.LegacyAddPartitionStatement | tempto-core/src/main/java/com/teradata/tempto/fulfillment/table/hive/HiveTableDefinition.java:172-196 | getAddPartitionTableDDL is "ALTER TABLE <name> ADD PARTITION (<spec>) LOCATION '<location>'" |
| LegacyHiveTableDefinitions.LegacyBuiltIsValid | tempto-core/src/main/java/com/teradata/tempto/fulfillment/table/hive/HiveTableDefinition.java:59-74 | a built definition answers getDataSource exactly when unpartitioned and getPartitionDefinitons exactly when partitioned |
| DdlTemplates.MarkerText | tempto-core/src/main/java/io/prestodb/tempto/fulfillment/table/hive/HiveTableDefinition.java:37-40 | a placeholder is its name between two '%' |
| DdlTemplates.Subst | tempto-core/src/main/java/io/prestodb/tempto/fulfillment/table/hive/HiveTableDefinition.java:83-95 | substituting a marker replaces exactly the pieces that are that marker, keeping the rest and the length |
| DdlTemplates.ReplaceRender | tempto-core/src/main/java/io/prestodb/tempto/fulfillment/table/hive/HiveTableDefinition.java:83 | on a well-formed template, String.replace of a placeholder is the substitution of its marker pieces |
| DdlTemplates.ContainsRender | tempto-core/src/main/java/io/prestodb/tempto/fulfillment/table/hive/HiveTableDefinition.java:87 | a well-formed template contains a placeholder exactly when it has that marker piece |
| DdlTemplates.SubstWellFormed | tempto-core/src/main/java/io/prestodb/tempto/fulfillment/table/hive/HiveTableDefinition.java:83-95 | filling a marker with text without '%' keeps the template well formed, so later replaces still act on markers only |
| DdlTemplates.AppendWellFormed | tempto-core/src/main/java/io/prestodb/tempto/fulfillment/table/hive/HiveTableDefinition.java:91 | appending the location clause keeps the template well formed |
| DdlTemplates.RenderAppend | tempto-core/src/main/java/io/prestodb/tempto/fulfillment/table/hive/HiveTableDefinition.java:91 | rendering distributes over concatenation |
| DdlTemplates.SubstAppend | tempto-core/src/main/java/io/prestodb/tempto/fulfillment/table/hive/HiveTableDefinition.java:91-95 | substitution distributes over concatenation |
| DdlTemplates.SubstMarkers | tempto-core/src/main/java/io/prestodb/tempto/fulfillment/table/hive/HiveTableDefinition.java:83-95 | after a substitution the marker is gone and every other marker is as before |
| DdlTemplates.SubstAbsent | tempto-core/src/main/java/io/prestodb/tempto/fulfillment/table/hive/HiveTableDefinition.java:95 | substituting an absent marker changes nothing |
| DdlTemplates.NoStartInOtherMarker | tempto-core/src/main/java/io/prestodb/tempto/fulfillment/table/hive/HiveTableDefinition.java:83-95 | no occurrence of a placeholder starts inside a different placeholder that is followed by a non-name character |
| RelationalTableDefinitions.NewRelationalTableDefinition | tempto-core/src/main/java/io/prestodb/tempto/fulfillment/table/jdbc/RelationalTableDefinition.java:44-51 | built exactly when the data source and the template are set and the template holds %NAME%; a missing one is a NullPointerException, a template without %NAME% IllegalArgument |
| RelationalTableDefinitions.RelationalTableDefinitionNamed | tempto-core/src/main/java/io/prestodb/tempto/fulfillment/table/jdbc/RelationalTableDefinition.java:29-32 | relationalTableDefinition(name, ...) succeeds exactly when the template holds %NAME%, with a bare-name handle |
| RelationalTableDefinitions.RelationalTableDefinitionBuilder.constructor | tempto-core/src/main/java/io/prestodb/tempto/fulfillment/table/jdbc/RelationalTableDefinition.java:75-78 | builder(name): a bare-name handle and nothing else set |
| RelationalTableDefinitions.RelationalTableDefinitionBuilder.WithSchema | tempto-core/src/main/java/io/prestodb/tempto/fulfillment/table/jdbc/RelationalTableDefinition.java:102-106 | only the handle changes, to the handle in that schema |
| RelationalTableDefinitions.RelationalTableDefinitionBuilder.WithDatabase | tempto-core/src/main/java/io/prestodb/tempto/fulfillment/table/jdbc/RelationalTableDefinition.java:108-112 | only the handle changes, to the handle in that database |
| RelationalTableDefinitions.RelationalTableDefinitionBuilder.SetCreateTableDDLTemplate | tempto-core/src/main/java/io/prestodb/tempto/fulfillment/table/jdbc/RelationalTableDefinition.java:114-118 | only the template changes |
| RelationalTableDefinitions.RelationalTableDefinitionBuilder.SetDataSource | tempto-core/src/main/java/io/prestodb/tempto/fulfillment/table/jdbc/RelationalTableDefinition.java:120-124 | only the data source changes |
| RelationalTableDefinitions.RelationalTableDefinitionBuilder.Build | tempto-core/src/main/java/io/prestodb/tempto/fulfillment/table/jdbc/RelationalTableDefinition.java:126-129 | build runs the constructor's checks |
| RelationalTableDefinitions.Like | tempto-core/src/main/java/io/prestodb/tempto/fulfillment/table/jdbc/RelationalTableDefinition.java:80-89 | like(definition): its name, its schema when present, its template and data source |
| RelationalTableDefinitions.RelationalCreateTableDDL | tempto-core/src/main/java/io/prestodb/tempto/fulfillment/table/jdbc/RelationalTableDefinition.java:58-61 | getCreateTableDDL fills every %NAME% and leaves none |
| RelationalTableDefinitions.LikeRebuilds | tempto-core/src/main/java/io/prestodb/tempto/fulfillment/table/jdbc/RelationalTableDefinition.java:80-89 | building what like() set succeeds with the same template, data source, name and schema, in no database |
| RelationalTableDefinitions.LikeIdentity | tempto-core/src/main/java/io/prestodb/tempto/fulfillment/table/jdbc/RelationalTableDefinition.java:80-89 | for a definition in no database, like() then build gives the definition back |
| MutableTableRequirements.StateValueOf | tempto-core/src/main/java/io/prestodb/tempto/fulfillment/table/MutableTableRequirement.java:25-42 | State.valueOf: a state is found only under its own name |
| MutableTableRequirements.MutableTableRequirementBuilder.constructor | tempto-core/src/main/java/io/prestodb/tempto/fulfillment/table/MutableTableRequirement.java:90-94 | builder(definition): the definition's handle and the LOADED state |
| MutableTableRequirements.MutableTableRequirementBuilder.WithName | tempto-core/src/main/java/io/prestodb/tempto/fulfillment/table/MutableTableRequirement.java:96-100 | only the handle changes, to one with that name |
| MutableTableRequirements.MutableTableRequirementBuilder.WithSchema | tempto-core/src/main/java/io/prestodb/tempto/fulfillment/table/MutableTableRequirement.java:102-106 | only the handle changes, to the handle in that schema |
| MutableTableRequirements.MutableTableRequirementBuilder.WithDatabase | tempto-core/src/main/java/io/prestodb/tempto/fulfillment/table/MutableTableRequirement.java:108-112 | only the handle changes, to the handle in that database |
| MutableTableRequirements.MutableTableRequirementBuilder.WithTableHandle | tempto-core/src/main/java/io/prestodb/tempto/fulfillment/table/MutableTableRequirement.java:114-118 | only the handle changes, to the given one |
| MutableTableRequirements.MutableTableRequirementBuilder.WithState | tempto-core/src/main/java/io/prestodb/tempto/fulfillment/table/MutableTableRequirement.java:120-124 | only the state changes |
| MutableTableRequirements.MutableTableRequirementBuilder.Build | tempto-core/src/main/java/io/prestodb/tempto/fulfillment/table/MutableTableRequirement.java:126-129 | the requirement holds the builder's handle, state and definition |
| MutableTableRequirements.DefaultRequirement | tempto-core/src/main/java/io/prestodb/tempto/fulfillment/table/MutableTableRequirement.java:79-82 | builder(definition).build(): the definition's own handle, LOADED |
| MutableTableRequirements.CopyWithDatabase | tempto-core/src/main/java/io/prestodb/tempto/fulfillment/table/MutableTableRequirement.java:57-65 | copyWithDatabase through the builder gives CopiedToDatabase |
| MutableTableRequirements.CopiedToDatabase | tempto-core/src/main/java/io/prestodb/tempto/fulfillment/table/MutableTableRequirement.java:57-65 | the copy keeps definition, state, name and schema and is in the given database |
| MutableTableRequirements.CopyTwice | tempto-core/src/main/java/io/prestodb/tempto/fulfillment/table/MutableTableRequirement.java:57-65 | copying twice is copying once to the last database |
| MutableTableRequirements.CopySameDatabase | tempto-core/src/main/java/io/prestodb/tempto/fulfillment/table/MutableTableRequirement.java:57-65 | copying into the database a requirement is already in changes nothing (for a handle not asking for no schema) |
| MutableTableRequirements.StateNames | tempto-core/src/main/java/io/prestodb/tempto/fulfillment/table/MutableTableRequirement.java:25-42 | valueOf(name()) is the identity, and exactly PREPARED, CREATED and LOADED are accepted |
| MutableTableRequirements.StateIgnoresCase | tempto-core/src/main/java/io/prestodb/tempto/fulfillment/table/MutableTableRequirement.java:25-42 | a name equal to a state's ignoring case, upper-cased, gives that state |
| JdbcTableManagers.EscapeNamePattern | tempto-core/src/main/java/io/prestodb/tempto/internal/fulfillment/table/jdbc/JdbcTableManager.java:125-136 | a missing name or escape gives the name unchanged; an escape of "_" or "%" is IllegalArgument; every failure is IllegalArgument |
| JdbcTableManagers.PartitionBy | tempto-core/src/main/java/io/prestodb/tempto/internal/fulfillment/table/jdbc/JdbcTableManager.java:201-221 | the batches partitionBy yields are Batching.Batches of the rows |
| JdbcTableManagers.NextBatch | tempto-core/src/main/java/io/prestodb/tempto/internal/fulfillment/table/jdbc/JdbcTableManager.java:212-219 | one next() takes the following min(k, remaining) rows |
| JdbcTableManagers.LoadEffects | tempto-core/src/main/java/io/prestodb/tempto/internal/fulfillment/table/jdbc/JdbcTableManager.java:192-194 | one load per batch, in order, into the table's name in the database |
| JdbcTableManagers.JdbcTableManager.constructor | tempto-core/src/main/java/io/prestodb/tempto/internal/fulfillment/table/jdbc/JdbcTableManager.java:64-74 | a new manager has executed nothing |
| JdbcTableManagers.JdbcTableManager.CreateTable | tempto-core/src/main/java/io/prestodb/tempto/internal/fulfillment/table/jdbc/JdbcTableManager.java:138-148 | createTable appends CREATE SCHEMA IF NOT EXISTS for a schema (unless skipped) and then the table's DDL |
| JdbcTableManagers.JdbcTableManager.InsertData | tempto-core/src/main/java/io/prestodb/tempto/internal/fulfillment/table/jdbc/JdbcTableManager.java:185-199 | insertData appends the loads of the batches of the rows, nothing for no rows |
| JdbcTableManagers.JdbcTableManager.CreateMutable | tempto-core/src/main/java/io/prestodb/tempto/internal/fulfillment/table/jdbc/JdbcTableManager.java:151-171 | the instance for the table name and definition; the effects are CreateMutableEffects for the state |
| JdbcTableManagers.JdbcTableManager.CreateImmutable | tempto-core/src/main/java/io/prestodb/tempto/internal/fulfillment/table/jdbc/JdbcTableManager.java:77-96 | the instance for the table name and definition; the effects are CreateImmutableEffects |
| JdbcTableManagers.AppendEffects | tempto-core/src/main/java/io/prestodb/tempto/internal/fulfillment/table/jdbc/JdbcTableManager.java:77-96 | the effect log of a sequence of steps is their concatenation, in order |
| JdbcTableManagers.LoadEffectsAppend | tempto-core/src/main/java/io/prestodb/tempto/internal/fulfillment/table/jdbc/JdbcTableManager.java:192-194 | one more batch appends one load |
| JdbcTableManagers.EscapeNamePatternChars | tempto-core/src/main/java/io/prestodb/tempto/internal/fulfillment/table/jdbc/JdbcTableManager.java:132-134 | with an admissible escape, the three replaces escape each character on its own |
| JdbcTableManagers.EscapeThreeReplaces | tempto-core/src/main/java/io/prestodb/tempto/internal/fulfillment/table/jdbc/JdbcTableManager.java:132-134 | the three String.replace calls in order equal the character-wise escape |
| JdbcTableManagers.EscapeOneChar | tempto-core/src/main/java/io/prestodb/tempto/internal/fulfillment/table/jdbc/JdbcTableManager.java:132-134 | a single character: the escape is doubled, '_' and '%' are preceded by the escape |
| JdbcTableManagers.EscapeCharsCons | tempto-core/src/main/java/io/prestodb/tempto/internal/fulfillment/table/jdbc/JdbcTableManager.java:132-134 | the escape works character by character |
| JdbcTableManagers.EscapeRoundTrip | tempto-core/src/main/java/io/prestodb/tempto/internal/fulfillment/table/jdbc/JdbcTableManager.java:125-136 | removing the escapes gives the name back, and the escaped pattern has no unescaped wildcard, so it matches the name literally |
| JdbcTableManagers.WildcardEscapeRefused | tempto-core/src/main/java/io/prestodb/tempto/internal/fulfillment/table/jdbc/JdbcTableManager.java:130-131 | an escape of "_" or "%" is IllegalArgument |
| JdbcTableManagers.CreateMutableByState | tempto-core/src/main/java/io/prestodb/tempto/internal/fulfillment/table/jdbc/JdbcTableManager.java:156-170 | PREPARED executes nothing; CREATED only statements, ending with the table's DDL; LOADED is CREATED followed by the data loads |
| JdbcTableManagers.InsertDataLoadsRows | tempto-core/src/main/java/io/prestodb/tempto/internal/fulfillment/table/jdbc/JdbcTableManager.java:185-199 | every effect loads into the table; the loaded batches concatenate to the rows and are cut at BATCH_SIZE; no rows, no effects |
| JdbcTableManagers.LoadedBatchesOf | tempto-core/src/main/java/io/prestodb/tempto/internal/fulfillment/table/jdbc/JdbcTableManager.java:192-194 | the batches read back from the loads are the batches loaded |
| JdbcTableManagers.CreateImmutableBySchema | tempto-core/src/main/java/io/prestodb/tempto/internal/fulfillment/table/jdbc/JdbcTableManager.java:83-94 | no schema: drop ignoring errors, then create and load; a schema and no such table: create and load; an existing table: nothing |
| Batching.BatchesSpec | tempto-core/src/main/java/io/prestodb/tempto/internal/fulfillment/table/jdbc/JdbcTableManager.java:201-221 | partitionBy's batches concatenate back to the rows, every batch but the last holds exactly k rows and none is empty, and there are ceil(n / k) of them |
| Batching.FlattenAppend | tempto-core/src/main/java/io/prestodb/tempto/internal/fulfillment/table/jdbc/JdbcTableManager.java:212-219 | concatenating one more batch appends its rows |
| Batching.BatchesFlatten | tempto-core/src/main/java/io/prestodb/tempto/internal/fulfillment/table/jdbc/JdbcTableManager.java:212-219 | no row is lost, duplicated or reordered |
| Batching.BatchesCut | tempto-core/src/main/java/io/prestodb/tempto/internal/fulfillment/table/jdbc/JdbcTableManager.java:215 | each batch stops at k rows or at the end of the rows |
| Batching.BatchesCount | tempto-core/src/main/java/io/prestodb/tempto/internal/fulfillment/table/jdbc/JdbcTableManager.java:206-219 | the number of batches is the ceiling of rows over k |
| Batching.BatchesEmpty | tempto-core/src/main/java/io/prestodb/tempto/internal/fulfillment/table/jdbc/JdbcTableManager.java:205-209 | there are no batches exactly when there are no rows |
| InsertLoaders.AsStringValue | tempto-core/src/main/java/io/prestodb/tempto/internal/fulfillment/table/jdbc/InsertLoader.java:79-101 | null is "null"; string types are quoted; numeric types are their text; any other type of a non-null value is IllegalArgument |
| InsertLoaders.ValueTexts | tempto-core/src/main/java/io/prestodb/tempto/internal/fulfillment/table/jdbc/InsertLoader.java:68-70 | the row's texts, one per column, succeed exactly when every value converts |
| InsertLoaders.RowTuple | tempto-core/src/main/java/io/prestodb/tempto/internal/fulfillment/table/jdbc/InsertLoader.java:62-72 | a row of the wrong width is IllegalArgument; otherwise "(" + the comma-joined texts + ")" |
| InsertLoaders.RowTuples | tempto-core/src/main/java/io/prestodb/tempto/internal/fulfillment/table/jdbc/InsertLoader.java:61-74 | one tuple per row, succeeding exactly when every row does |
| InsertLoaders.InsertSql | tempto-core/src/main/java/io/prestodb/tempto/internal/fulfillment/table/jdbc/InsertLoader.java:59-77 | "INSERT INTO <table> VALUES " and the comma-joined tuples, or the first row's IllegalArgument |
| InsertLoaders.InsertLoader.constructor | tempto-core/src/main/java/io/prestodb/tempto/internal/fulfillment/table/jdbc/InsertLoader.java:39-45 | a new loader has executed nothing |
| InsertLoaders.InsertLoader.Load | tempto-core/src/main/java/io/prestodb/tempto/internal/fulfillment/table/jdbc/InsertLoader.java:47-57 | load executes LoadRun's statements and reports its failure |
| InsertLoaders.ExecuteStep | tempto-core/src/main/java/io/prestodb/tempto/internal/fulfillment/table/jdbc/InsertLoader.java:51-56 | an empty chunk is skipped; a chunk whose SQL fails stops the load; otherwise its statement comes first |
| InsertLoaders.ExecuteChunksAll | tempto-core/src/main/java/io/prestodb/tempto/internal/fulfillment/table/jdbc/InsertLoader.java:51-56 | when every chunk converts, one statement per chunk in order and no failure |
| InsertLoaders.LoadIssuesChunks | tempto-core/src/main/java/io/prestodb/tempto/internal/fulfillment/table/jdbc/InsertLoader.java:33-57 | when every row converts, the batch is cut into chunks of 100 rows that concatenate back to it, one INSERT per chunk |
| InsertLoaders.ExecuteChunksFails | tempto-core/src/main/java/io/prestodb/tempto/internal/fulfillment/table/jdbc/InsertLoader.java:63-67 | a row of the wrong width anywhere makes the load fail with IllegalArgument |
| InsertLoaders.InsertSqlShape | tempto-core/src/main/java/io/prestodb/tempto/internal/fulfillment/table/jdbc/InsertLoader.java:59-88 | the INSERT starts with its fixed prefix, each tuple holds one text per column, null as "null" and strings quoted |
| LegacyInsertLoaders.LegacyInsertSql | tempto-core/src/main/java/com/teradata/tempto/internal/fulfillment/table/jdbc/InsertLoader.java:55-68 | a row of the wrong width is IllegalArgument; otherwise "INSERT INTO <table> VALUES (" + the comma-joined texts + ")", failing exactly when a value does not convert |
| LegacyInsertLoaders.LegacyInsertLoader.constructor | tempto-core/src/main/java/com/teradata/tempto/internal/fulfillment/table/jdbc/InsertLoader.java:38-44 | a new loader has executed nothing |
| LegacyInsertLoaders.LegacyInsertLoader.Load | tempto-core/src/main/java/com/teradata/tempto/internal/fulfillment/table/jdbc/InsertLoader.java:46-53 | load executes LegacyLoadRun's statements, one per row, and reports its failure |
| LegacyInsertLoaders.LegacyStep | tempto-core/src/main/java/com/teradata/tempto/internal/fulfillment/table/jdbc/InsertLoader.java:50-52 | a row whose SQL fails stops the load; otherwise its statement comes first |
| LegacyInsertLoaders.LegacyLoadPerRow | tempto-core/src/main/java/com/teradata/tempto/internal/fulfillment/table/jdbc/InsertLoader.java:46-53 | one INSERT per row in order when every row converts; a failure is IllegalArgument at the first row that does not, after the rows before it |
| LegacyInsertLoaders.LegacyLoadAll | tempto-core/src/main/java/com/teradata/tempto/internal/fulfillment/table/jdbc/InsertLoader.java:50-52 | when every row converts, one statement per row in order and no failure |
| LegacyInsertLoaders.LegacyLoadStops | tempto-core/src/main/java/com/teradata/tempto/internal/fulfillment/table/jdbc/InsertLoader.java:57-61 | a failed load stops at a row whose SQL fails, having executed only the rows before it |
| LegacyInsertLoaders.LegacyIsSingleRowChunk | tempto-core/src/main/java/com/teradata/tempto/internal/fulfillment/table/jdbc/InsertLoader.java:55-68 | the legacy statement for a row is the new loader's statement for a one-row chunk |
| CassandraBatchLoaders.Copies | tempto-core/src/main/java/io/prestodb/tempto/internal/fulfillment/table/cassandra/CassandraBatchLoader.java:55-64 | n copies of the pattern, each equal to it |
| CassandraBatchLoaders.RepeatPattern | tempto-core/src/main/java/io/prestodb/tempto/internal/fulfillment/table/cassandra/CassandraBatchLoader.java:55-64 | the loop's result is the pattern repeated max(times, 1) times and joined by the separator |
| CassandraBatchLoaders.InsertQueryMarkers | tempto-core/src/main/java/io/prestodb/tempto/internal/fulfillment/table/cassandra/CassandraBatchLoader.java:47-53 | the VALUES list holds one "?" per column, and a single "?" for no columns |
| CassandraBatchLoaders.CreateInsertQuery | tempto-core/src/main/java/io/prestodb/tempto/internal/fulfillment/table/cassandra/CassandraBatchLoader.java:47-53 | the prepared INSERT names the columns joined by "," and the markers of repeatPattern |
| CassandraBatchLoaders.CassandraBatchLoader.constructor | tempto-core/src/main/java/io/prestodb/tempto/internal/fulfillment/table/cassandra/CassandraBatchLoader.java:36-45 | a new loader keeps the query, the column count and the batch size and has executed nothing |
| CassandraBatchLoaders.NewCassandraBatchLoader | tempto-core/src/main/java/io/prestodb/tempto/internal/fulfillment/table/cassandra/CassandraBatchLoader.java:36-45 | a batch size of zero or less is IllegalArgument; otherwise a fresh loader with createInsertQuery's statement and one column count per name |
| CassandraBatchLoaders.CassandraBatchLoader.Load | tempto-core/src/main/java/io/prestodb/tempto/internal/fulfillment/table/cassandra/CassandraBatchLoader.java:66-84 | load executes LoadRun's batches and reports its failure |
| CassandraBatchLoaders.LoadFromBatches | tempto-core/src/main/java/io/prestodb/tempto/internal/fulfillment/table/cassandra/CassandraBatchLoader.java:71-83 | from a pending batch, rows of the right size are sent as Batching.Batches of the pending and remaining rows |
| CassandraBatchLoaders.LoadFromStops | tempto-core/src/main/java/io/prestodb/tempto/internal/fulfillment/table/cassandra/CassandraBatchLoader.java:76-77 | a row of the wrong size stops the load with IllegalState after sending only full batches of the rows before it |
| CassandraBatchLoaders.FlushedBatch | tempto-core/src/main/java/io/prestodb/tempto/internal/fulfillment/table/cassandra/CassandraBatchLoader.java:72-75 | a full batch sent before the rest keeps every batch full and the rows in order |
| CassandraBatchLoaders.LoadSpec | tempto-core/src/main/java/io/prestodb/tempto/internal/fulfillment/table/cassandra/CassandraBatchLoader.java:66-84 | rows of the right size are sent in order, in batches of batchRowsCount with only the last shorter, ceil(n / k) of them; a wrong-sized row gives IllegalState after full batches of earlier rows only; no rows sends nothing |
| CassandraTpchDataSources.RemapList | tempto-core/src/main/java/io/prestodb/tempto/internal/fulfillment/table/cassandra/tpch/CassandraTpchDataSource.java:77-86 | a mapping of another size is IllegalArgument, a target outside the list IndexOutOfBounds and an unwritten position NullPointer; a result has the input's length |
| CassandraTpchDataSources.Remap | tempto-core/src/main/java/io/prestodb/tempto/internal/fulfillment/table/cassandra/tpch/CassandraTpchDataSource.java:77-86 | the array writes followed by the copy compute RemapList |
| CassandraTpchDataSources.Identity | tempto-core/src/main/java/io/prestodb/tempto/internal/fulfillment/table/cassandra/tpch/CassandraTpchDataSource.java:53-56 | the positions 0..n-1 in order |
| CassandraTpchDataSources.NewCassandraTpchDataSource | tempto-core/src/main/java/io/prestodb/tempto/internal/fulfillment/table/cassandra/tpch/CassandraTpchDataSource.java:43-51 | a scale factor of zero or less is IllegalArgument; otherwise the column types are remapped and a remapping failure is the constructor's |
| CassandraTpchDataSources.NewIdentityCassandraTpchDataSource | tempto-core/src/main/java/io/prestodb/tempto/internal/fulfillment/table/cassandra/tpch/CassandraTpchDataSource.java:53-56 | the three-argument constructor fails only for a scale factor of zero or less, and keeps the column types as given |
| CassandraTpchDataSources.LineFields | tempto-core/src/main/java/io/prestodb/tempto/internal/fulfillment/table/cassandra/tpch/CassandraTpchDataSource.java:70-72 | the fields of the line without the last one after the final '\|' |
| CassandraTpchDataSources.TpchEntityToObjects | tempto-core/src/main/java/io/prestodb/tempto/internal/fulfillment/table/cassandra/tpch/CassandraTpchDataSource.java:68-75 | a row is the remapped fields of the line converted by the column types, or the remapping's failure |
| CassandraTpchDataSources.WrittenAt | tempto-core/src/main/java/io/prestodb/tempto/internal/fulfillment/table/cassandra/tpch/CassandraTpchDataSource.java:81-83 | with distinct targets, output[mapping[i]] holds input[i] after all writes |
| CassandraTpchDataSources.PermutedMultiset | tempto-core/src/main/java/io/prestodb/tempto/internal/fulfillment/table/cassandra/tpch/CassandraTpchDataSource.java:80-85 | a sequence placed element by element at distinct positions holds the same elements |
| CassandraTpchDataSources.RemapPermutation | tempto-core/src/main/java/io/prestodb/tempto/internal/fulfillment/table/cassandra/tpch/CassandraTpchDataSource.java:77-86 | a permutation mapping succeeds, puts input[i] at mapping[i] and keeps the multiset of elements |
| CassandraTpchDataSources.IdentityRemap | tempto-core/src/main/java/io/prestodb/tempto/internal/fulfillment/table/cassandra/tpch/CassandraTpchDataSource.java:53-56 | the identity mapping returns the input unchanged |
| CassandraTpchDataSources.RemapSizeMismatch | tempto-core/src/main/java/io/prestodb/tempto/internal/fulfillment/table/cassandra/tpch/CassandraTpchDataSource.java:79 | sizes that differ are IllegalArgument |
| CassandraTpchDataSources.LineFieldsOfLine | tempto-core/src/main/java/io/prestodb/tempto/internal/fulfillment/table/cassandra/tpch/CassandraTpchDataSource.java:70-72 | for a line of '\|'-free fields each closed by '\|', LineFields gives back the fields |
| TpcdsDataSources.NewTpcdsDataSource | tempto-core/src/main/java/io/prestodb/tempto/fulfillment/table/hive/tpcds/TpcdsDataSource.java:47-52 | the data source exists exactly for a positive scale factor, otherwise IllegalArgument |
| TpcdsDataSources.PathSuffix | tempto-core/src/main/java/io/prestodb/tempto/fulfillment/table/hive/tpcds/TpcdsDataSource.java:55-58 | the path suffix has no '.', and for a table name without '.' it is "tpcds/sf-<scale>/<table>" |
| Strings.DigitsOnly | tempto-core/src/main/java/io/prestodb/tempto/fulfillment/table/hive/tpcds/TpcdsDataSource.java:57 | a number, such as the scale factor in the path, is written in decimal digits only |
| TpcdsDataSources.Cells | tempto-core/src/main/java/io/prestodb/tempto/fulfillment/table/hive/tpcds/TpcdsDataSource.java:84-86 | one cell per column, null written as \N |
| TpcdsDataSources.FormatRowShape | tempto-core/src/main/java/io/prestodb/tempto/fulfillment/table/hive/tpcds/TpcdsDataSource.java:82-87 | a row of '\|'-free cells has one '\|' per column and splits back into its cells and a final empty field |
| TpcdsDataSources.FormatEmptyRow | tempto-core/src/main/java/io/prestodb/tempto/fulfillment/table/hive/tpcds/TpcdsDataSource.java:82-87 | an empty row is the single "\|" |
| TpcdsDataSources.Lines | tempto-core/src/main/java/io/prestodb/tempto/fulfillment/table/hive/tpcds/TpcdsDataSource.java:75-79 | each row is followed by a line break: two strings per row |
| TpcdsDataSources.Utf8 | tempto-core/src/main/java/io/prestodb/tempto/fulfillment/table/hive/tpcds/TpcdsDataSource.java:135 | a character encodes to one to four bytes, none above 0xF4 |
| TpcdsDataSources.Utf8String | tempto-core/src/main/java/io/prestodb/tempto/fulfillment/table/hive/tpcds/TpcdsDataSource.java:135 | a string encodes to between one and four bytes per character |
| TpcdsDataSources.Signed | tempto-core/src/main/java/io/prestodb/tempto/fulfillment/table/hive/tpcds/TpcdsDataSource.java:143 | a byte read as Java's signed byte lies in -128..127 |
| TpcdsDataSources.StringIteratorInputStream.constructor | tempto-core/src/main/java/io/prestodb/tempto/fulfillment/table/hive/tpcds/TpcdsDataSource.java:123-126 | a new stream has all bytes of all strings still to return |
| TpcdsDataSources.StringIteratorInputStream.Read | tempto-core/src/main/java/io/prestodb/tempto/fulfillment/table/hive/tpcds/TpcdsDataSource.java:128-149 | read returns the next pending byte, signed, and consumes it, or -1 with nothing left |
| TpcdsDataSources.Data | tempto-core/src/main/java/io/prestodb/tempto/fulfillment/table/hive/tpcds/TpcdsDataSource.java:60-64 | the stream returns the UTF-8 bytes of the generated lines in order |
| TpcdsDataSources.FetchNext | tempto-core/src/main/java/io/prestodb/tempto/fulfillment/table/hive/tpcds/TpcdsDataSource.java:132-136 | fetching the next string does not change the bytes still to come |
| TpcdsDataSources.ReadByte | tempto-core/src/main/java/io/prestodb/tempto/fulfillment/table/hive/tpcds/TpcdsDataSource.java:142-144 | reading within the current string returns its next byte |
| TpcdsDataSources.UsedUp | tempto-core/src/main/java/io/prestodb/tempto/fulfillment/table/hive/tpcds/TpcdsDataSource.java:145-147 | a used-up string adds nothing more |
| TpcdsDataSources.EncodeAllAppend | tempto-core/src/main/java/io/prestodb/tempto/fulfillment/table/hive/tpcds/TpcdsDataSource.java:75-79 | the bytes of two runs of strings are the bytes of each in turn |
| TpcdsDataSources.EmptyStringAddsNothing | tempto-core/src/main/java/io/prestodb/tempto/fulfillment/table/hive/tpcds/TpcdsDataSource.java:132-147 | an empty string in the data contributes no byte |
| TpcdsDataSources.SignedBytes | tempto-core/src/main/java/io/prestodb/tempto/fulfillment/table/hive/tpcds/TpcdsDataSource.java:128-149 | a signed byte is negative exactly for 0x80 and above and keeps its value modulo 256; no byte of a UTF-8 stream reads as -1, so the end of the stream is unambiguous |
| MapConfigurations.SplitKey | tempto-core/src/main/java/io/prestodb/tempto/internal/configuration/MapConfiguration.java:92 | a key has at least one segment |
| MapConfigurations.Walk | tempto-core/src/main/java/io/prestodb/tempto/internal/configuration/MapConfiguration.java:92-114 | the loop over the key parts finds Lookup's entry: a missing part or a leaf before the last part gives nothing |
| MapConfigurations.GetObject | tempto-core/src/main/java/io/prestodb/tempto/internal/configuration/MapConfiguration.java:86-115 | a top-level key equal to the whole dotted key wins; otherwise the walk over its segments |
| MapConfigurations.Get | tempto-core/src/main/java/io/prestodb/tempto/internal/configuration/MapConfiguration.java:76-84 | get returns only leaves, and returns the object at the key whenever that is a leaf |
| MapConfigurations.CollectKeys | tempto-core/src/main/java/io/prestodb/tempto/internal/configuration/MapConfiguration.java:125-136 | the recursive walk adds exactly the listed keys of the map under the prefix to the accumulator |
| MapConfigurations.CollectEntry | tempto-core/src/main/java/io/prestodb/tempto/internal/configuration/MapConfiguration.java:127-134 | one entry adds its own joined key if it is a leaf, or the keys of its map under that key |
| MapConfigurations.ListKeys | tempto-core/src/main/java/io/prestodb/tempto/internal/configuration/MapConfiguration.java:117-123 | listKeys is the set of the joined leaf paths |
| MapConfigurations.KeysOfOne | tempto-core/src/main/java/io/prestodb/tempto/internal/configuration/MapConfiguration.java:128-133 | a leaf contributes its key, a map the keys beneath it |
| MapConfigurations.JoinKeyCons | tempto-core/src/main/java/io/prestodb/tempto/internal/configuration/MapConfiguration.java:128 | joining segment by segment under a prefix is joining the whole path |
| MapConfigurations.LookupLeafPath | tempto-core/src/main/java/io/prestodb/tempto/internal/configuration/MapConfiguration.java:96-113 | every leaf path of the tree leads to a leaf |
| MapConfigurations.LeafPathOfLookup | tempto-core/src/main/java/io/prestodb/tempto/internal/configuration/MapConfiguration.java:96-113 | every path that leads to a leaf is a leaf path of the tree |
| MapConfigurations.ObjectAtIsLookup | tempto-core/src/main/java/io/prestodb/tempto/internal/configuration/MapConfiguration.java:88-92 | with no '.' inside the stored keys, the literal-key shortcut agrees with the walk |
| MapConfigurations.ListedKeysResolve | tempto-core/src/main/java/io/prestodb/tempto/internal/configuration/MapConfiguration.java:76-136 | with no '.' inside the stored keys, a key is listed exactly when get finds a value for it |
| MapConfigurations.LookupAppend | tempto-core/src/main/java/io/prestodb/tempto/internal/configuration/MapConfiguration.java:96-113 | walking a longer path is walking its first part and then the rest inside the map found |
| MapConfigurations.SubconfigurationGet | tempto-core/src/main/java/io/prestodb/tempto/internal/configuration/MapConfiguration.java:138-148 | a key read in a subconfiguration is the prefix-joined key read in the whole configuration |
| LegacyMapConfigurations.LegacyGetObject | test-framework-core/src/main/java/com/teradata/test/internal/configuration/MapConfiguration.java:69-94 | the old getObject is the walk alone, with no literal-key shortcut |
| LegacyMapConfigurations.LegacyGet | test-framework-core/src/main/java/com/teradata/test/internal/configuration/MapConfiguration.java:59-67 | a key that names a map is IllegalArgument; otherwise the walk's leaf or nothing |
| LegacyMapConfigurations.LegacyAgrees | test-framework-core/src/main/java/com/teradata/test/internal/configuration/MapConfiguration.java:59-127 | where the new shortcut cannot apply, the old get agrees with the new one but fails where the new one returns nothing, and both subconfigurations agree |
| LegacyMapConfigurations.LiteralKeyShortcut | test-framework-core/src/main/java/com/teradata/test/internal/configuration/MapConfiguration.java:69-94 | a stored key "a.b" beside a map "a" with "b" is read differently: the new configuration returns the literal key's value, the old one the nested value |
| LegacyMapConfigurations.LegacyListedKeysResolve | test-framework-core/src/main/java/com/teradata/test/internal/configuration/MapConfiguration.java:59-115 | with no '.' inside the stored keys, a key is listed exactly when the old get finds a value |
| LegacyMapConfigurations.LegacySubconfigurationGet | test-framework-core/src/main/java/com/teradata/test/internal/configuration/MapConfiguration.java:117-127 | a key read in an old subconfiguration is the prefix-joined key read in the whole configuration |
| JdbcConnectionsConfigurations.GetString | tempto-core/src/main/java/io/prestodb/tempto/internal/query/JdbcConnectionsConfiguration.java:80 | a string is present exactly when get finds a leaf, and it is that leaf's text |
| JdbcConnectionsConfigurations.GetStringMandatory | tempto-core/src/main/java/io/prestodb/tempto/internal/query/JdbcConnectionsConfiguration.java:58-61 | a missing mandatory key is IllegalState; otherwise its string |
| JdbcConnectionsConfigurations.GetBoolean | tempto-core/src/main/java/io/prestodb/tempto/internal/query/JdbcConnectionsConfiguration.java:62 | a boolean is present with the string, and true exactly for "true" in any case |
| JdbcConnectionsConfigurations.ResolveFrom | tempto-core/src/main/java/io/prestodb/tempto/internal/query/JdbcConnectionsConfiguration.java:70-88 | alias resolution fails only with IllegalState |
| JdbcConnectionsConfigurations.ResolveStep | tempto-core/src/main/java/io/prestodb/tempto/internal/query/JdbcConnectionsConfiguration.java:74-87 | an unvisited alias without a next alias is its own section; with one, resolution continues from it with the alias marked visited |
| JdbcConnectionsConfigurations.DatabaseConnectionSubConfiguration | tempto-core/src/main/java/io/prestodb/tempto/internal/query/JdbcConnectionsConfiguration.java:70-88 | the while loop with its visited set computes Resolve |
| JdbcConnectionsConfigurations.GetDefinedConnectionNames | tempto-core/src/main/java/io/prestodb/tempto/internal/query/JdbcConnectionsConfiguration.java:45-50 | the defined names are the first-level names under databases that resolve to a section with a driver class |
| JdbcConnectionsConfigurations.Filter | tempto-core/src/main/java/io/prestodb/tempto/internal/query/JdbcConnectionsConfiguration.java:47-49 | the filter keeps the names whose resolved section has a driver class, and fails if any name's aliases loop |
| JdbcConnectionsConfigurations.FilterOne | tempto-core/src/main/java/io/prestodb/tempto/internal/query/JdbcConnectionsConfiguration.java:48 | one name passes the filter exactly when it resolves, adding it when it has a driver class |
| JdbcConnectionsConfigurations.ConnectionConfiguration | tempto-core/src/main/java/io/prestodb/tempto/internal/query/JdbcConnectionsConfiguration.java:52-68 | the connection parameters fail only with IllegalState and are named after the requested connection, which resolves |
| JdbcConnectionsConfigurations.GetConnectionConfiguration | tempto-core/src/main/java/io/prestodb/tempto/internal/query/JdbcConnectionsConfiguration.java:52-68 | getConnectionConfiguration computes ConnectionConfiguration |
| JdbcConnectionsConfigurations.ResolvedHasNoAlias | tempto-core/src/main/java/io/prestodb/tempto/internal/query/JdbcConnectionsConfiguration.java:80-86 | a resolved section has no alias key |
| JdbcConnectionsConfigurations.ResolveSpec | tempto-core/src/main/java/io/prestodb/tempto/internal/query/JdbcConnectionsConfiguration.java:70-88 | a name without an alias is its own section; an alias to itself is IllegalState; a resolved section has no alias; a name resolves like the alias it points to |
| JdbcConnectionsConfigurations.AliasCycle | tempto-core/src/main/java/io/prestodb/tempto/internal/query/JdbcConnectionsConfiguration.java:75-77 | two names aliasing each other are IllegalState |
| JdbcConnectionsConfigurations.DefinedNamesSpec | tempto-core/src/main/java/io/prestodb/tempto/internal/query/JdbcConnectionsConfiguration.java:45-50 | every defined name resolves to a section with a driver class; a database without an alias is defined exactly when its own section has one |
| JdbcConnectionsConfigurations.ConnectionConfigurationSpec | tempto-core/src/main/java/io/prestodb/tempto/internal/query/JdbcConnectionsConfiguration.java:52-68 | the parameters exist exactly when driver class, url, user and password are present; the url is the configured one and pooling is on exactly for "true" |
| MapSplitter.ParseEntries | tempto-core/src/main/java/io/prestodb/tempto/internal/convention/AnnotatedFileParser.java:72-75 | one parse per entry, in order |
| MapSplitter.TrimNoEdgeSpace | tempto-core/src/main/java/io/prestodb/tempto/internal/convention/AnnotatedFileParser.java:72-74 | trimming leaves a string without surrounding whitespace unchanged |
| MapSplitter.EntryFields | tempto-core/src/main/java/io/prestodb/tempto/internal/convention/AnnotatedFileParser.java:72-75 | a written "key:value" entry splits on ':' into its key and value, is already trimmed and holds no ';' |
| MapSplitter.EntryParses | tempto-core/src/main/java/io/prestodb/tempto/internal/convention/AnnotatedFileParser.java:75 | a written entry parses back to its pair |
| MapSplitter.ParseRendered | tempto-core/src/main/java/io/prestodb/tempto/internal/convention/AnnotatedFileParser.java:72-75 | parsing the written entries gives back every pair |
| MapSplitter.PutAllContents | tempto-core/src/main/java/io/prestodb/tempto/internal/convention/AnnotatedFileParser.java:72-75 | with distinct keys, the map holds the earlier keys and exactly the pairs' keys, each with its value, and keeps the other earlier values |
| MapSplitter.PutParsedPairs | tempto-core/src/main/java/io/prestodb/tempto/internal/convention/AnnotatedFileParser.java:72-75 | distinct new keys are all put without failure |
| MapSplitter.SplitEntriesPairs | tempto-core/src/main/java/io/prestodb/tempto/internal/convention/AnnotatedFileParser.java:72-75 | splitting the written entries gives the map of the pairs |
| MapSplitter.RenderEntries | tempto-core/src/main/java/io/prestodb/tempto/internal/convention/AnnotatedFileParser.java:72-74 | splitting the ';'-joined line, trimmed and without empty parts, gives back the entries |
| MapSplitter.SplitRender | tempto-core/src/main/java/io/prestodb/tempto/internal/convention/AnnotatedFileParser.java:72-75 | a header line written from pairs with distinct keys splits back into a map holding exactly those pairs |
| MapSplitter.PutEntriesErrors | test-framework-core/src/main/java/com/teradata/test/internal/convention/HeaderFileParser.java:39-42 | the splitter fails only with IllegalArgument |
| MapSplitter.PutMalformedFails | test-framework-core/src/main/java/com/teradata/test/internal/convention/HeaderFileParser.java:42 | an entry that is not exactly a key and a value fails the split |
| MapSplitter.PutKeyPresentFails | test-framework-core/src/main/java/com/teradata/test/internal/convention/HeaderFileParser.java:39-42 | a key already in the map fails the split |
| MapSplitter.PutDuplicateFails | test-framework-core/src/main/java/com/teradata/test/internal/convention/HeaderFileParser.java:39-42 | a key given twice fails the split |
| MapSplitter.MalformedEntryFails | tempto-core/src/main/java/io/prestodb/tempto/internal/convention/AnnotatedFileParser.java:75 | an entry without exactly one ':' fails the whole header |
| MapSplitter.DuplicateKeyFails | tempto-core/src/main/java/io/prestodb/tempto/internal/convention/AnnotatedFileParser.java:72-75 | two entries with the same key fail the whole header |
| MethodSelectors.ListSystemProperty | tempto-core/src/main/java/io/prestodb/tempto/internal/listeners/TestNameGroupNameMethodSelector.java:120-126 | a property is a filter exactly when it is set, and the filter holds the trimmed, non-empty comma-separated entries |
| MethodSelectors.FromProperties | tempto-core/src/main/java/io/prestodb/tempto/internal/listeners/TestNameGroupNameMethodSelector.java:65-79 | each of the three filters is present exactly when its system property is set |
| MethodSelectors.IncludeMethodSpec | tempto-core/src/main/java/io/prestodb/tempto/internal/listeners/TestNameGroupNameMethodSelector.java:81-113 | a method is included exactly when some requested name occurs in its test name, some group is requested and no group is excluded (each check passing when its filter is absent); isTestMethod plays no part |
| MethodSelectors.NoFiltersIncludeAll | tempto-core/src/main/java/io/prestodb/tempto/internal/listeners/TestNameGroupNameMethodSelector.java:90-113 | with no property set every method is included |
| MethodSelectors.EmptyGroupsAdmitNothing | tempto-core/src/main/java/io/prestodb/tempto/internal/listeners/TestNameGroupNameMethodSelector.java:99-105 | an empty set of groups to run includes nothing |
| MethodSelectors.BlankPropertyIsEmptyFilter | tempto-core/src/main/java/io/prestodb/tempto/internal/listeners/TestNameGroupNameMethodSelector.java:61 | a property of blanks and commas is an empty filter, not an absent one |
| MethodSelectors.ExclusionWins | tempto-core/src/main/java/io/prestodb/tempto/internal/listeners/TestNameGroupNameMethodSelector.java:85-87 | a method in an excluded group is never included |
| MethodSelectors.NameMatchesSubstring | tempto-core/src/main/java/io/prestodb/tempto/internal/listeners/TestNameGroupNameMethodSelector.java:96 | a requested name selects every test whose name ends with it, and also one where it only occurs inside ("c" selects "abc.c2") |
| MethodSelectors.FiltersMonotone | tempto-core/src/main/java/io/prestodb/tempto/internal/listeners/TestNameGroupNameMethodSelector.java:81-113 | more names or groups to run and fewer groups to exclude never drop a method |
| LegacyMethodSelectors.NonTestMethodsIncluded | test-framework-core/src/main/java/com/teradata/test/internal/listeners/TestNameGroupNameMethodSelector.java:75-77 | the old selector includes every method that is not a test method |
| LegacyMethodSelectors.LegacyStricter | test-framework-core/src/main/java/com/teradata/test/internal/listeners/TestNameGroupNameMethodSelector.java:84-92 | a test method the old selector includes is also included by the new one |
| LegacyMethodSelectors.SuffixNotSubstring | test-framework-core/src/main/java/com/teradata/test/internal/listeners/TestNameGroupNameMethodSelector.java:90-91 | the old selector matches a name only as the whole test name or its last dotted part: "c" does not select "abc", which the new one does |
| LegacyMethodSelectors.DottedSuffixMatches | test-framework-core/src/main/java/com/teradata/test/internal/listeners/TestNameGroupNameMethodSelector.java:90-91 | "c" selects "a.b.c" in both selectors |
| TestProxyGenerators.GeneratedClassName | tempto-core/src/main/java/io/prestodb/tempto/internal/convention/ConventionBasedTestProxyGenerator.java:84-88 | a test name with fewer than two dotted parts is IndexOutOfBounds; otherwise the package, '.', and the symbol of the next-to-last part |
| TestProxyGenerators.ToJavaSymbolShape | tempto-core/src/main/java/io/prestodb/tempto/internal/convention/ConventionBasedTestProxyGenerator.java:96-106 | the empty string stays empty; otherwise the result uses only [A-Za-z0-9_], starts with a letter or '_', and is the sanitized input with one '_' in front exactly when the input does not start with a letter |
| TestProxyGenerators.ToJavaSymbolFixed | tempto-core/src/main/java/io/prestodb/tempto/internal/convention/ConventionBasedTestProxyGenerator.java:96-106 | toJavaSymbol leaves a string unchanged exactly when it is empty or already an identifier starting with a letter |
| TestProxyGenerators.FixedIsIdentifier | tempto-core/src/main/java/io/prestodb/tempto/internal/convention/ConventionBasedTestProxyGenerator.java:101-104 | a non-empty string left unchanged is such an identifier |
| TestProxyGenerators.IdentifierIsFixed | tempto-core/src/main/java/io/prestodb/tempto/internal/convention/ConventionBasedTestProxyGenerator.java:101-104 | such an identifier is left unchanged |
| TestProxyGenerators.ToJavaSymbolNotIdempotent | tempto-core/src/main/java/io/prestodb/tempto/internal/convention/ConventionBasedTestProxyGenerator.java:102-104 | toJavaSymbol is not idempotent: "1a" becomes "_1a" and then "__1a" |
| TestProxyGenerators.GeneratedNames | tempto-core/src/main/java/io/prestodb/tempto/internal/convention/ConventionBasedTestProxyGenerator.java:84-94 | for a name joined from dot-free parts, the class is named after the next-to-last part and the method after the last |
| TestProxyGenerators.NamesOfSegments | tempto-core/src/main/java/io/prestodb/tempto/internal/convention/ConventionBasedTestProxyGenerator.java:84-94 | the class and method names are the symbols of the last two parts of the split name |
| TestProxyGenerators.UndottedNameHasNoClass | tempto-core/src/main/java/io/prestodb/tempto/internal/convention/ConventionBasedTestProxyGenerator.java:84-94 | a name without '.' has no class name (IndexOutOfBounds) and its method is the whole name |
| SqlQueryConventionBasedTests.LastIndexOf | tempto-core/src/main/java/io/prestodb/tempto/internal/convention/sql/SqlQueryConventionBasedTest.java:145 | the last position whose character matches, with none after it, or none at all |
| SqlQueryConventionBasedTests.BaseNameOfFile | tempto-core/src/main/java/io/prestodb/tempto/internal/convention/sql/SqlQueryConventionBasedTest.java:193 | a file name "stem.ext" without separators has the base name "stem" |
| SqlQueryConventionBasedTests.UnnamedSuffix | tempto-core/src/main/java/io/prestodb/tempto/internal/convention/sql/SqlQueryConventionBasedTest.java:199-204 | an unnamed section adds "_" and the query number only when the file holds several queries, and never a '.' |
| SqlQueryConventionBasedTests.NamedTestName | tempto-core/src/main/java/io/prestodb/tempto/internal/convention/sql/SqlQueryConventionBasedTest.java:188-206 | a named section's test name is the prefix, the file's base name and the section name without white space, joined by '.' |
| SqlQueryConventionBasedTests.UnnamedTestName | tempto-core/src/main/java/io/prestodb/tempto/internal/convention/sql/SqlQueryConventionBasedTest.java:188-206 | an unnamed section's test name is the prefix and the base name with its number suffix, joined by '.' |
| SqlQueryConventionBasedTests.NamedTestProxyNames | tempto-core/src/main/java/io/prestodb/tempto/internal/convention/sql/SqlQueryConventionBasedTest.java:188-206 | a named section's proxy is a class named after the query file and a method named after the section |
| SqlQueryConventionBasedTests.UnnamedTestProxyNames | tempto-core/src/main/java/io/prestodb/tempto/internal/convention/sql/SqlQueryConventionBasedTest.java:188-206 | an unnamed section's proxy is a class named after the last prefix part and a method named after the file and number |
| SqlQueryConventionBasedTests.SpacesEnd | tempto-core/src/main/java/io/prestodb/tempto/internal/convention/sql/SqlQueryConventionBasedTest.java:65 | the first non-space position at or after j, with only spaces before it |
| SqlQueryConventionBasedTests.SeparatorEnd | tempto-core/src/main/java/io/prestodb/tempto/internal/convention/sql/SqlQueryConventionBasedTest.java:65 | a separator found at i starts with ';' and ends with a line break |
| SqlQueryConventionBasedTests.FirstSeparator | tempto-core/src/main/java/io/prestodb/tempto/internal/convention/sql/SqlQueryConventionBasedTest.java:65 | the first separator at or after i: none starts before it, and none at all when there is no match |
| SqlQueryConventionBasedTests.SplitAtSeparators | tempto-core/src/main/java/io/prestodb/tempto/internal/convention/sql/SqlQueryConventionBasedTest.java:65 | splitting yields at least one piece |
| SqlQueryConventionBasedTests.NonEmpty | tempto-core/src/main/java/io/prestodb/tempto/internal/convention/sql/SqlQueryConventionBasedTest.java:183 | the kept queries are all non-empty |
| SqlQueryConventionBasedTests.SplitQueries | tempto-core/src/main/java/io/prestodb/tempto/internal/convention/sql/SqlQueryConventionBasedTest.java:179-185 | the queries of a file are never empty strings |
| SqlQueryConventionBasedTests.RunTestQuery | tempto-core/src/main/java/io/prestodb/tempto/internal/convention/sql/SqlQueryConventionBasedTest.java:109-123 | a file without queries is IllegalState and runs nothing; otherwise every query is resolved and executed in order and the last result is returned |
| SqlQueryConventionBasedTests.Separator | tempto-core/src/main/java/io/prestodb/tempto/internal/convention/sql/SqlQueryConventionBasedTest.java:65 | a separator ";", spaces, optional "\r" and "\n" starts with ';' and ends with a line break |
| SqlQueryConventionBasedTests.FirstSeparatorAfter | tempto-core/src/main/java/io/prestodb/tempto/internal/convention/sql/SqlQueryConventionBasedTest.java:65 | after a query without ';' the first separator is the one that follows it |
| SqlQueryConventionBasedTests.SplitAtSeparatorsCons | tempto-core/src/main/java/io/prestodb/tempto/internal/convention/sql/SqlQueryConventionBasedTest.java:65 | a query and a separator in front of the rest split off as one piece |
| SqlQueryConventionBasedTests.NoSemicolonOnePiece | tempto-core/src/main/java/io/prestodb/tempto/internal/convention/sql/SqlQueryConventionBasedTest.java:65 | content without ';' is one piece |
| SqlQueryConventionBasedTests.SplitAtSeparatorsJoin | tempto-core/src/main/java/io/prestodb/tempto/internal/convention/sql/SqlQueryConventionBasedTest.java:65 | queries without ';' joined by a separator split back into the same queries |
| SqlQueryConventionBasedTests.SplitQueriesJoin | tempto-core/src/main/java/io/prestodb/tempto/internal/convention/sql/SqlQueryConventionBasedTest.java:179-185 | queries without ';' joined by separators come back as the non-empty ones, in order |
| SqlQueryConventionBasedTests.NoLineBreakOneQuery | tempto-core/src/main/java/io/prestodb/tempto/internal/convention/sql/SqlQueryConventionBasedTest.java:179-185 | content without a line break is one query, or none when empty |
| QueryResults.ToSqlIndex | tempto-core/src/main/java/io/prestodb/tempto/query/QueryResult.java:134-137 | toSqlIndex is undone by fromSqlIndex |
| QueryResults.SqlIndexRoundTrip | tempto-core/src/main/java/io/prestodb/tempto/query/QueryResult.java:134-148 | toSqlIndex and fromSqlIndex are inverse to each other |
| QueryResults.GetColumnType | tempto-core/src/main/java/io/prestodb/tempto/query/QueryResult.java:72-75 | a column type exists exactly for an index from 1 to the column count, else IndexOutOfBounds; it is the type at index - 1 |
| QueryResults.Column | tempto-core/src/main/java/io/prestodb/tempto/query/QueryResult.java:93-99 | a column exists exactly when every row has the index; it holds one value per row, the row's value at index - 1, else IndexOutOfBounds |
| QueryResults.ValuesAt | tempto-core/src/main/java/io/prestodb/tempto/query/QueryResult.java:96-98 | one value per row, the row's value at the index |
| QueryResults.ColumnOfWellFormed | tempto-core/src/main/java/io/prestodb/tempto/query/QueryResult.java:93-99 | in a well-formed result every valid SQL index has a column with one value per row |
| QueryResults.ForSingleIntegerValue | tempto-core/src/main/java/io/prestodb/tempto/query/QueryResult.java:156-160 | one INTEGER column, one row, and its column holds exactly the value |
| QueryResults.ForSingleValue | tempto-core/src/main/java/io/prestodb/tempto/query/QueryResult.java:162-166 | one column of the given type, one row, and its column holds exactly the value |
| QueryResults.Empty | tempto-core/src/main/java/io/prestodb/tempto/query/QueryResult.java:168-171 | one INTEGER column and no rows: every column is empty |
| QueryResults.NameIndexes | tempto-core/src/main/java/io/prestodb/tempto/query/QueryResult.java:205-208 | the name BiMap is one-to-one and every name in it is the name given at its index |
| QueryResults.PutKeeps | tempto-core/src/main/java/io/prestodb/tempto/query/QueryResult.java:206 | putting the next name keeps the BiMap one-to-one and indexed by the longer list |
| QueryResults.DistinctNameIndexes | tempto-core/src/main/java/io/prestodb/tempto/query/QueryResult.java:198-209 | with distinct non-null names every index from 1 to the count carries a name |
| QueryResults.RepeatedNameKeepsLast | tempto-core/src/main/java/io/prestodb/tempto/query/QueryResult.java:206 | a name given twice keeps only its later index |
| QueryResults.QueryResultBuilder.Init | tempto-core/src/main/java/io/prestodb/tempto/query/QueryResult.java:182-187 | a new builder has no types, names or rows |
| QueryResults.QueryResultBuilder.Create | tempto-core/src/main/java/io/prestodb/tempto/query/QueryResult.java:198-209 | lists of different sizes are IllegalState; otherwise a fresh builder with the types, the name BiMap and no rows |
| QueryResults.QueryResultBuilder.AddRow | tempto-core/src/main/java/io/prestodb/tempto/query/QueryResult.java:216-221 | a row of the wrong arity is IllegalState and adds nothing; otherwise it is appended; types and names are unchanged |
| QueryResults.QueryResultBuilder.Build | tempto-core/src/main/java/io/prestodb/tempto/query/QueryResult.java:244-247 | the result holds the builder's types, names and rows |
| QueryResults.Projected | tempto-core/src/main/java/io/prestodb/tempto/query/QueryResult.java:101-121 | project fails only with IndexOutOfBounds |
| QueryResults.Project | tempto-core/src/main/java/io/prestodb/tempto/query/QueryResult.java:101-121 | the loops over the indexes and the rows compute Projected |
| QueryResults.ProjectValues | tempto-core/src/main/java/io/prestodb/tempto/query/QueryResult.java:110-116 | a row's projection exists exactly when the row has every index, and is the row's values at those indexes |
| QueryResults.ProjectedOk | tempto-core/src/main/java/io/prestodb/tempto/query/QueryResult.java:101-121 | gathering the types, names and row values of valid indexes yields the projected result |
| QueryResults.TypesGathered | tempto-core/src/main/java/io/prestodb/tempto/query/QueryResult.java:105-108 | the gathered types are the projected types |
| QueryResults.RowsGathered | tempto-core/src/main/java/io/prestodb/tempto/query/QueryResult.java:110-116 | the gathered rows are the projected rows |
| QueryResults.ProjectSpec | tempto-core/src/main/java/io/prestodb/tempto/query/QueryResult.java:101-121 | on a well-formed result, project succeeds exactly for valid indexes; the projection is well formed, keeps the row count and its j-th column is the j-th requested column, with its type |
| QueryAsserts.PrependNothing | tempto-core/src/main/java/io/prestodb/tempto/assertions/QueryAssert.java:170-186 | adding nothing in front of an accumulated list leaves it as it is |
| QueryAsserts.PrependTwice | tempto-core/src/main/java/io/prestodb/tempto/assertions/QueryAssert.java:170-186 | adding two prefixes in turn is adding their concatenation |
| QueryAsserts.AnyEqual | tempto-core/src/main/java/io/prestodb/tempto/assertions/QueryAssert.java:341-349 | an exception from isAnyValueEqual is one the comparator raised on one of the expected values |
| QueryAsserts.IsAnyValueEqual | tempto-core/src/main/java/io/prestodb/tempto/assertions/QueryAssert.java:341-349 | the loop with early return computes AnyEqual |
| QueryAsserts.AnyEqualSpec | tempto-core/src/main/java/io/prestodb/tempto/assertions/QueryAssert.java:341-349 | when no comparison throws, a value matches exactly when the comparator gives 0 against some expected alternative |
| QueryAsserts.EqualRows | tempto-core/src/main/java/io/prestodb/tempto/assertions/QueryAssert.java:323-327 | rows of different lengths are not equal |
| QueryAsserts.RowsEqual | tempto-core/src/main/java/io/prestodb/tempto/assertions/QueryAssert.java:323-339 | the loop over the columns computes EqualRows |
| QueryAsserts.CellsEqualSpec | tempto-core/src/main/java/io/prestodb/tempto/assertions/QueryAssert.java:328-338 | when no comparison throws, the columns from i on are equal exactly when each matches one of its alternatives |
| QueryAsserts.EqualRowsSpec | tempto-core/src/main/java/io/prestodb/tempto/assertions/QueryAssert.java:323-339 | when no comparison throws, rowsEqual holds exactly when the lengths agree and every cell matches one of its alternatives |
| QueryAsserts.ContainsRow | tempto-core/src/main/java/io/prestodb/tempto/assertions/QueryAssert.java:313-321 | the loop over the actual rows computes RowFound from the first row |
| QueryAsserts.RowFoundSpec | tempto-core/src/main/java/io/prestodb/tempto/assertions/QueryAssert.java:313-321 | when no comparison throws, a row is found exactly when some actual row from i on matches it |
| QueryAsserts.Missing | tempto-core/src/main/java/io/prestodb/tempto/assertions/QueryAssert.java:172-178 | the missing rows are never more than the expected ones |
| QueryAsserts.MissingSpec | tempto-core/src/main/java/io/prestodb/tempto/assertions/QueryAssert.java:170-186 | when no comparison throws, the missing rows are exactly the expected rows no actual row matches |
| QueryAsserts.ContainsOutcome | tempto-core/src/main/java/io/prestodb/tempto/assertions/QueryAssert.java:180-183 | contains fails only by reporting a non-empty list of missing rows |
| QueryAsserts.Contains | tempto-core/src/main/java/io/prestodb/tempto/assertions/QueryAssert.java:170-186 | the loop accumulating missingRows computes ContainsOutcome |
| QueryAsserts.ContainsSpec | tempto-core/src/main/java/io/prestodb/tempto/assertions/QueryAssert.java:170-186 | when no comparison throws, contains holds exactly when every expected row matches some actual row, and a failure reports exactly the unmatched ones |
| QueryAsserts.HasRowsCount | tempto-core/src/main/java/io/prestodb/tempto/assertions/QueryAssert.java:116-122 | the row count check holds exactly for the expected count |
| QueryAsserts.ContainsOnlyOutcome | tempto-core/src/main/java/io/prestodb/tempto/assertions/QueryAssert.java:204-210 | containsOnly fails on a different row count, and is otherwise contains |
| QueryAsserts.ContainsOnly | tempto-core/src/main/java/io/prestodb/tempto/assertions/QueryAssert.java:204-210 | the method computes ContainsOnlyOutcome |
| QueryAsserts.ContainsOnlyNotBijection | tempto-core/src/main/java/io/prestodb/tempto/assertions/QueryAssert.java:204-210 | containsOnly is not a bijection: expected [a, a] passes against actual [a, b] |
| QueryAsserts.EqualityComparator | tempto-core/src/main/java/io/prestodb/tempto/assertions/QueryAssert.java:341-349 | a comparator that gives 0 exactly for equal values |
| QueryAsserts.Unequal | tempto-core/src/main/java/io/prestodb/tempto/assertions/QueryAssert.java:233-240 | the reported indexes are positions from i on |
| QueryAsserts.UnequalSpec | tempto-core/src/main/java/io/prestodb/tempto/assertions/QueryAssert.java:233-240 | when no comparison throws, the reported indexes are exactly the positions whose rows differ |
| QueryAsserts.ContainsExactlyOutcome | tempto-core/src/main/java/io/prestodb/tempto/assertions/QueryAssert.java:229-247 | containsExactly fails on a different row count, and otherwise only by reporting a non-empty list of unequal rows |
| QueryAsserts.ContainsExactly | tempto-core/src/main/java/io/prestodb/tempto/assertions/QueryAssert.java:229-247 | the loop accumulating unequalRowsIndexes computes ContainsExactlyOutcome |
| QueryAsserts.ContainsExactlySpec | tempto-core/src/main/java/io/prestodb/tempto/assertions/QueryAssert.java:229-247 | when no comparison throws, containsExactly holds exactly when the counts agree and each expected row matches the actual row at its position, and a failure reports exactly the positions that do not |
| QueryAsserts.OwnRowsMatchExactly | tempto-core/src/main/java/io/prestodb/tempto/assertions/QueryAssert.java:229-247 | a result whose values conform to its column types matches its own rows exactly |
| QueryAsserts.FirstTypeMismatch | tempto-core/src/main/java/io/prestodb/tempto/assertions/QueryAssert.java:148-155 | the first position from i where the types differ, with all before it equal, or none when they all agree |
| QueryAsserts.HasColumns | tempto-core/src/main/java/io/prestodb/tempto/assertions/QueryAssert.java:145-157 | hasColumns holds exactly when the actual column types are the expected ones |
| QueryAsserts.AsExpected | tempto-core/src/main/java/io/prestodb/tempto/assertions/QueryAssert.java:94 | one expected row per row, of the same length |
| QueryAsserts.MatchesOutcome | tempto-core/src/main/java/io/prestodb/tempto/assertions/QueryAssert.java:87-114 | a type mismatch fails the match; rows that cannot be mapped fail it with the mapping's error |
| QueryAsserts.Matches | tempto-core/src/main/java/io/prestodb/tempto/assertions/QueryAssert.java:87-114 | matches computes MatchesOutcome |
| QueryAsserts.MatchesDescriptor | tempto-core/src/main/java/io/prestodb/tempto/assertions/QueryAssert.java:87-114 | without expected types and without a column delimiter the expected rows cannot be mapped |
| QueryAsserts.OrderedMatchIgnoresExcessFlag | tempto-core/src/main/java/io/prestodb/tempto/assertions/QueryAssert.java:100-109 | an ordered match checks the row count whether or not excess rows are ignored |
| QueryAsserts.UnorderedMatchSpec | tempto-core/src/main/java/io/prestodb/tempto/assertions/QueryAssert.java:100-109 | an unordered match holds like containsOnly, or like contains when excess rows are ignored |
| QueryAsserts.MatchesChecksTypes | tempto-core/src/main/java/io/prestodb/tempto/assertions/QueryAssert.java:89-99 | a match with expected types holds only when the column types are those and the rows can be mapped |
| QueryAsserts.RowToString | tempto-core/src/main/java/io/prestodb/tempto/assertions/QueryAssert.java:463-479 | the loop with a StringBuilder computes RowText |
| QueryAsserts.RowTextStep | tempto-core/src/main/java/io/prestodb/tempto/assertions/QueryAssert.java:465-477 | each value's text is followed by '\|' |
| QueryAsserts.Texts | tempto-core/src/main/java/io/prestodb/tempto/assertions/QueryAssert.java:465-477 | one text per value |
| QueryAsserts.RowTextIsJoin | tempto-core/src/main/java/io/prestodb/tempto/assertions/QueryAssert.java:463-479 | Row.toString is the value texts joined by '\|' with a final '\|' |
| QueryAsserts.RowTextSplits | tempto-core/src/main/java/io/prestodb/tempto/assertions/QueryAssert.java:463-479 | when no text holds '\|', Row.toString splits back into the texts and a final empty field |
| QueryAsserts.RowTextExample | tempto-core/src/main/java/io/prestodb/tempto/assertions/QueryAssert.java:469-471 | null is written "null": [null, "a"] becomes "null\|a\|" |
| QueryRowMapper.ConvertBoolean | tempto-core/src/main/java/io/prestodb/tempto/internal/query/QueryRowMapper.java:114-123 | a boolean cell converts exactly when it is "true" or "false" in any case, to true exactly for "true"; anything else is IllegalArgument |
| QueryRowMapper.ConvertBit | tempto-core/src/main/java/io/prestodb/tempto/internal/query/QueryRowMapper.java:125-134 | a BIT cell converts exactly when it is "0" or "1", to true exactly for "1"; anything else is IllegalArgument |
| QueryRowMapper.FromOption | tempto-core/src/main/java/io/prestodb/tempto/internal/query/QueryRowMapper.java:86-88 | a parse that yields nothing is IllegalArgument |
| QueryRowMapper.ConvertValue | tempto-core/src/main/java/io/prestodb/tempto/internal/query/QueryRowMapper.java:61-107 | the cell is null exactly when it is the literal "null"; every failure is IllegalArgument |
| QueryRowMapper.ConvertNonNull | tempto-core/src/main/java/io/prestodb/tempto/internal/query/QueryRowMapper.java:69-106 | a converted non-null cell is never null; every failure is IllegalArgument |
| QueryRowMapper.MapToRow | tempto-core/src/main/java/io/prestodb/tempto/internal/query/QueryRowMapper.java:46-59 | a row of the wrong width is IllegalState; otherwise it converts exactly when every cell does, to one value per cell, each the cell's conversion |
| QueryRowMapper.ConvertRowSpec | tempto-core/src/main/java/io/prestodb/tempto/internal/query/QueryRowMapper.java:46-59 | the row conversion fails on width with IllegalState, otherwise exactly when a cell fails, with IllegalArgument, and yields each cell's conversion |
| QueryRowMapper.ConvertCellsSpec | tempto-core/src/main/java/io/prestodb/tempto/internal/query/QueryRowMapper.java:51-56 | the cells convert exactly when each does, each to its own conversion |
| QueryRowMapper.ConvertRowFails | tempto-core/src/main/java/io/prestodb/tempto/internal/query/QueryRowMapper.java:55 | one cell that fails fails the row with IllegalArgument |
| QueryRowMapper.ConvertRowOf | tempto-core/src/main/java/io/prestodb/tempto/internal/query/QueryRowMapper.java:46-59 | cells that each convert to the row's values convert to the row |
| QueryRowMapper.ConvertRowWidth | tempto-core/src/main/java/io/prestodb/tempto/internal/query/QueryRowMapper.java:48-50 | a converted row has one value per column |
| QueryRowMapper.StringColumns | tempto-core/src/main/java/io/prestodb/tempto/internal/query/QueryRowMapper.java:70-74 | a string column keeps the cell's text |
| QueryRowMapper.NationalCharColumns | tempto-core/src/main/java/io/prestodb/tempto/internal/query/QueryRowMapper.java:104-105 | NCHAR and NVARCHAR cells are unsupported (IllegalArgument) |
| QueryRowMapper.IntegerColumns | tempto-core/src/main/java/io/prestodb/tempto/internal/query/QueryRowMapper.java:83-86 | a TINYINT, SMALLINT or INTEGER cell written from n is the Integer n when n fits in 32 bits, else IllegalArgument |
| QueryRowMapper.BigintColumns | tempto-core/src/main/java/io/prestodb/tempto/internal/query/QueryRowMapper.java:87-88 | a BIGINT cell written from n is the Long n when n fits in 64 bits, else IllegalArgument |
| QueryRowMapper.NotNullLiteral | tempto-core/src/main/java/io/prestodb/tempto/internal/query/QueryRowMapper.java:65 | a written integer is never the null literal |
| QueryRowMapper.BinaryColumns | tempto-core/src/main/java/io/prestodb/tempto/internal/query/QueryRowMapper.java:109-112 | a binary cell written in hex converts back to its bytes |
| QueryRowMapper.BinaryCell | tempto-core/src/main/java/io/prestodb/tempto/internal/query/QueryRowMapper.java:75-78 | a binary cell is its parsed hex bytes, or IllegalArgument when it is not hex |
| QueryRowMapper.HexIsNotNullLiteral | tempto-core/src/main/java/io/prestodb/tempto/internal/query/QueryRowMapper.java:65 | a hex string is never the null literal |
| QueryRowMapper.BooleanColumns | tempto-core/src/main/java/io/prestodb/tempto/internal/query/QueryRowMapper.java:79-82 | BOOLEAN accepts "true"/"false" in any case and BIT "0"/"1", true exactly for "true" and "1" |
| QueryRowMapper.UnsupportedColumns | tempto-core/src/main/java/io/prestodb/tempto/internal/query/QueryRowMapper.java:104-105 | every other column type is IllegalArgument |
| LegacyQueryRowMapper.ConvertValue | tempto-core/src/main/java/com/teradata/tempto/internal/query/QueryRowMapper.java:63-105 | the cell is null exactly when it is the literal "null"; every failure is IllegalArgument |
| LegacyQueryRowMapper.ConvertNonNull | tempto-core/src/main/java/com/teradata/tempto/internal/query/QueryRowMapper.java:69-104 | a converted non-null cell is never null; every failure is IllegalArgument |
| LegacyQueryRowMapper.MapToRow | tempto-core/src/main/java/com/teradata/tempto/internal/query/QueryRowMapper.java:48-61 | a row of the wrong width is IllegalState; otherwise it converts exactly when every cell does, each to its own conversion |
| LegacyQueryRowMapper.BinaryAsBoolean | tempto-core/src/main/java/com/teradata/tempto/internal/query/QueryRowMapper.java:75-79 | binary columns go through Boolean.valueOf: true exactly for "true" in any case |
| LegacyQueryRowMapper.BinaryHexCells | tempto-core/src/main/java/com/teradata/tempto/internal/query/QueryRowMapper.java:75-79 | a hex cell in a binary column is false in the old mapper but its bytes in the new one |
| LegacyQueryRowMapper.HexIsNotTrue | tempto-core/src/main/java/com/teradata/tempto/internal/query/QueryRowMapper.java:79 | a hex string is neither "true" nor the null literal |
| LegacyQueryRowMapper.BooleanNeverFails | tempto-core/src/main/java/com/teradata/tempto/internal/query/QueryRowMapper.java:76-79 | a BOOLEAN cell never fails in the old mapper and is true exactly for "true" in any case |
| LegacyQueryRowMapper.IntegerColumnsAsLong | tempto-core/src/main/java/com/teradata/tempto/internal/query/QueryRowMapper.java:82-86 | every integer column becomes a Long when the number fits in 64 bits, else IllegalArgument |
| LegacyQueryRowMapper.AgreesWithNewer | tempto-core/src/main/java/com/teradata/tempto/internal/query/QueryRowMapper.java:63-105 | outside the binary, boolean and integer columns the old and new mappers convert alike |
| ValueComparator.CompareNumbers | tempto-core/src/main/java/io/prestodb/tempto/internal/query/QueryResultValueComparator.java:184-202 | Integer/Long compareTo: 0 exactly for equal numbers, negative exactly when the actual is smaller |
| ValueComparator.CompareBooleans | tempto-core/src/main/java/io/prestodb/tempto/internal/query/QueryResultValueComparator.java:176-182 | Boolean compareTo: 0 exactly for equal booleans |
| ValueComparator.Codes | tempto-core/src/main/java/io/prestodb/tempto/internal/query/QueryResultValueComparator.java:160-166 | one code per character, its numeric value |
| ValueComparator.Compare | tempto-core/src/main/java/io/prestodb/tempto/internal/query/QueryResultValueComparator.java:62-110 | compare fails only for an unsupported column type (Unsupported) |
| ValueComparator.CompareNonNull | tempto-core/src/main/java/io/prestodb/tempto/internal/query/QueryResultValueComparator.java:70-109 | the switch on the column type fails only for an unsupported type |
| ValueComparator.ArrayCompare | tempto-core/src/main/java/io/prestodb/tempto/internal/query/QueryResultValueComparator.java:112-136 | arrayEqual fails only when an element comparison does |
| ValueComparator.ElementsCompare | tempto-core/src/main/java/io/prestodb/tempto/internal/query/QueryResultValueComparator.java:127-134 | the element comparison from i on fails only when an element comparison does |
| ValueComparator.ArrayEqual | tempto-core/src/main/java/io/prestodb/tempto/internal/query/QueryResultValueComparator.java:112-136 | the loop over the elements computes ArrayCompare |
| ValueComparator.CompareNulls | tempto-core/src/main/java/io/prestodb/tempto/internal/query/QueryResultValueComparator.java:64-69 | two nulls compare 0 and a null against a value -1, in either order, for every type |
| ValueComparator.CompareUnsupported | tempto-core/src/main/java/io/prestodb/tempto/internal/query/QueryResultValueComparator.java:106-108 | for two non-null values, compare is Unsupported exactly for the types outside the switch |
| ValueComparator.LexicographicZero | tempto-core/src/main/java/io/prestodb/tempto/internal/query/QueryResultValueComparator.java:160-174 | a lexicographic comparison is 0 exactly for equal sequences |
| ValueComparator.LexicographicAntisymmetric | tempto-core/src/main/java/io/prestodb/tempto/internal/query/QueryResultValueComparator.java:160-174 | swapping the operands negates the comparison |
| ValueComparator.CodesInjective | tempto-core/src/main/java/io/prestodb/tempto/internal/query/QueryResultValueComparator.java:163 | two strings have the same codes exactly when they are equal |
| ValueComparator.StringColumns | tempto-core/src/main/java/io/prestodb/tempto/internal/query/QueryResultValueComparator.java:160-166 | string columns compare two strings 0 exactly when they are equal, and antisymmetrically |
| ValueComparator.BinaryColumns | tempto-core/src/main/java/io/prestodb/tempto/internal/query/QueryResultValueComparator.java:168-174 | binary columns compare two byte arrays 0 exactly when they are equal |
| ValueComparator.IntegerColumns | tempto-core/src/main/java/io/prestodb/tempto/internal/query/QueryResultValueComparator.java:194-202 | TINYINT to INTEGER columns compare 0 exactly for two Integer-or-narrower values of equal number |
| ValueComparator.BigintColumns | tempto-core/src/main/java/io/prestodb/tempto/internal/query/QueryResultValueComparator.java:184-192 | BIGINT columns compare 0 exactly for two Long-or-narrower values of equal number |
| ValueComparator.WrongClassDiffers | tempto-core/src/main/java/io/prestodb/tempto/internal/query/QueryResultValueComparator.java:168-202 | a string against a non-null value in a numeric, boolean or binary column is -1 |
| ValueComparator.ArrayColumns | tempto-core/src/main/java/io/prestodb/tempto/internal/query/QueryResultValueComparator.java:112-136 | an array equals a list exactly when they have the same length and each element compares 0 with the base type's comparator |
| ValueComparator.ElementsZero | tempto-core/src/main/java/io/prestodb/tempto/internal/query/QueryResultValueComparator.java:127-135 | the element comparison is 0 exactly when every element from i on compares 0 |
| ValueComparator.CompareReflexive | tempto-core/src/main/java/io/prestodb/tempto/internal/query/QueryResultValueComparator.java:62-136 | a value that conforms to its column type compares 0 with itself, arrays included, when the opaque comparisons are reflexive |
| ValueComparator.ScalarReflexive | tempto-core/src/main/java/io/prestodb/tempto/internal/query/QueryResultValueComparator.java:62-110 | a conforming non-array value compares 0 with itself |
| RunnerCommandLineParsers.Changeable | tempto-runner/src/main/java/io/prestodb/tempto/runner/TemptoRunnerCommandLineParser.java:131-134 | an option is exposed to the command line exactly when it has no default or its default is changeable |
| RunnerCommandLineParsers.BuildOptions | tempto-runner/src/main/java/io/prestodb/tempto/runner/TemptoRunnerCommandLineParser.java:120-129 | the loop exposes exactly the changeable options, in registration order |
| RunnerCommandLineParsers.OptionValue | tempto-runner/src/main/java/io/prestodb/tempto/runner/TemptoRunnerCommandLineParser.java:151-162 | an option with a default always has a value; one without has a value exactly when it is on the command line |
| RunnerCommandLineParsers.ValuesOf | tempto-runner/src/main/java/io/prestodb/tempto/runner/TemptoRunnerCommandLineParser.java:142-147 | the value map holds exactly the registered options that have a value, each with that value |
| RunnerCommandLineParsers.ToOptions | tempto-runner/src/main/java/io/prestodb/tempto/runner/TemptoRunnerCommandLineParser.java:136-149 | leftover arguments are a ParsingException, and only they |
| RunnerCommandLineParsers.CommandLineToOptions | tempto-runner/src/main/java/io/prestodb/tempto/runner/TemptoRunnerCommandLineParser.java:136-149 | the loop over the options computes ToOptions |
| RunnerCommandLineParsers.Parsed | tempto-runner/src/main/java/io/prestodb/tempto/runner/TemptoRunnerCommandLineParser.java:86-97 | a failing commons-cli parse becomes a ParsingException |
| RunnerCommandLineParsers.ParseCommandLine | tempto-runner/src/main/java/io/prestodb/tempto/runner/TemptoRunnerCommandLineParser.java:86-97 | parseCommandLine parses against the exposed options and converts the result |
| RunnerCommandLineParsers.Builder.constructor | tempto-runner/src/main/java/io/prestodb/tempto/runner/TemptoRunnerCommandLineParser.java:175-189 | a new builder holds the eight runner options plus config and convention-test-dir, with the three changeable defaults |
| RunnerCommandLineParsers.Builder.PresetOptions | tempto-runner/src/main/java/io/prestodb/tempto/runner/TemptoRunnerCommandLineParser.java:178-188 | setting report-dir adds nothing, setting config and convention-test-dir appends them |
| RunnerCommandLineParsers.Builder.AddRunnerOptions | tempto-runner/src/main/java/io/prestodb/tempto/runner/TemptoRunnerCommandLineParser.java:178-185 | the eight addOption calls register the options in that order |
| RunnerCommandLineParsers.Builder.AddOption | tempto-runner/src/main/java/io/prestodb/tempto/runner/TemptoRunnerCommandLineParser.java:191-201 | a second option with the same long name is IllegalArgument and leaves the list alone; otherwise the option is appended |
| RunnerCommandLineParsers.Builder.SetDefaultValue | tempto-runner/src/main/java/io/prestodb/tempto/runner/TemptoRunnerCommandLineParser.java:243-250 | the option is registered if missing and its default replaced |
| RunnerCommandLineParsers.Builder.SetDefault | tempto-runner/src/main/java/io/prestodb/tempto/runner/TemptoRunnerCommandLineParser.java:238-241 | the public setDefaultValue makes a changeable default |
| RunnerCommandLineParsers.Builder.SetTestsPackage | tempto-runner/src/main/java/io/prestodb/tempto/runner/TemptoRunnerCommandLineParser.java:203-206 | sets the package default |
| RunnerCommandLineParsers.Builder.SetConfigFiles | tempto-runner/src/main/java/io/prestodb/tempto/runner/TemptoRunnerCommandLineParser.java:213-216 | sets the config default to the files joined by commas |
| RunnerCommandLineParsers.Builder.SetConfigFile | tempto-runner/src/main/java/io/prestodb/tempto/runner/TemptoRunnerCommandLineParser.java:208-211 | sets the config default to the single file |
| RunnerCommandLineParsers.Builder.SetReportDir | tempto-runner/src/main/java/io/prestodb/tempto/runner/TemptoRunnerCommandLineParser.java:218-221 | sets the report-dir default |
| RunnerCommandLineParsers.Builder.SetConventionTestDirectory | tempto-runner/src/main/java/io/prestodb/tempto/runner/TemptoRunnerCommandLineParser.java:223-226 | sets the convention-test-dir default |
| RunnerCommandLineParsers.Builder.SetExcludedGroups | tempto-runner/src/main/java/io/prestodb/tempto/runner/TemptoRunnerCommandLineParser.java:228-231 | sets the excluded-groups default |
| RunnerCommandLineParsers.Builder.SetGroups | tempto-runner/src/main/java/io/prestodb/tempto/runner/TemptoRunnerCommandLineParser.java:233-236 | sets the groups default |
| RunnerCommandLineParsers.Builder.Build | tempto-runner/src/main/java/io/prestodb/tempto/runner/TemptoRunnerCommandLineParser.java:252-255 | the parser has the builder's options, defaults and name, and no two options share a long name |
| RunnerCommandLineParsers.CommandLineOverridesDefault | tempto-runner/src/main/java/io/prestodb/tempto/runner/TemptoRunnerCommandLineParser.java:154-156 | a value given on the command line wins over the default; an absent option takes the default |
| RunnerCommandLineParsers.FlagsAndAbsentOptions | tempto-runner/src/main/java/io/prestodb/tempto/runner/TemptoRunnerCommandLineParser.java:157-161 | a flag given without a value reads "true"; an absent option without a default is missing from the result |
| RunnerCommandLineParsers.FixedDefaultStays | tempto-runner/src/main/java/io/prestodb/tempto/runner/TemptoRunnerCommandLineParser.java:120-134 | an unchangeable default is not exposed, so the parsed options always carry the default |
| RunnerCommandLineParsers.EmptyCommandLine | tempto-runner/src/main/java/io/prestodb/tempto/runner/TemptoRunnerCommandLineParser.java:136-162 | commandLineToOptions on a command line that carries no option gives exactly the defaults |
| RunnerCommandLineParsers.FreshParserDefaults | tempto-runner/src/main/java/io/prestodb/tempto/runner/TemptoRunnerCommandLineParser.java:175-189 | commandLineToOptions of the freshly built parser, on a command line that carries no option, gives report-dir, config and convention-test-dir at their defaults |
| RunnerCommandLineParsers.MissingRequiredFails | tempto-runner/src/main/java/io/prestodb/tempto/runner/TemptoRunnerCommandLineParser.java:86-97 | when commons-cli honours required options, a required option without a default that the arguments do not give makes parseCommandLine fail with a ParsingException |
| RunnerCommandLineParsers.FreshParserNeedsPackage | tempto-runner/src/main/java/io/prestodb/tempto/runner/TemptoRunnerCommandLineParser.java:175-189 | the fresh parser gives the required package option no default, so arguments without -p (the empty argument list included) fail with a ParsingException |
| RunnerCommandLineParsers.LeftoverArgumentsRefused | tempto-runner/src/main/java/io/prestodb/tempto/runner/TemptoRunnerCommandLineParser.java:139-141 | any leftover argument is refused |
| RunnerOptions.GetValue | tempto-runner/src/main/java/io/prestodb/tempto/runner/TemptoRunnerOptions.java:158-161 | present exactly when the option has a value, and then that value |
| RunnerOptions.GetValues | tempto-runner/src/main/java/io/prestodb/tempto/runner/TemptoRunnerOptions.java:153-156 | no value gives the empty set; every element is non-empty and trimmed |
| RunnerOptions.IsSet | tempto-runner/src/main/java/io/prestodb/tempto/runner/TemptoRunnerOptions.java:163-166 | set exactly when the value is the string "true" |
| RunnerOptions.GetThreadCount | tempto-runner/src/main/java/io/prestodb/tempto/runner/TemptoRunnerOptions.java:148-151 | 1 when absent; an int in range when parsed; IllegalArgument (NumberFormatException) otherwise |
| RunnerOptions.GetMandatory | tempto-runner/src/main/java/io/prestodb/tempto/runner/TemptoRunnerOptions.java:103-126 | Optional.get succeeds exactly when the option has a value and fails with NoSuchElement otherwise |
| RunnerOptions.GetValuesAsSelectorList | tempto-runner/src/main/java/io/prestodb/tempto/runner/TemptoRunnerOptions.java:153-156 | getValues splits like the selector's list property |
| RunnerOptions.GetValuesOfJoined | tempto-runner/src/main/java/io/prestodb/tempto/runner/TemptoRunnerOptions.java:153-156 | splitting names joined by commas gives back the set of names |
| RunnerOptions.GetValuesBlank | tempto-runner/src/main/java/io/prestodb/tempto/runner/TemptoRunnerOptions.java:153-156 | a value of blanks and commas gives the empty set |
| RunnerOptions.IsSetCaseSensitive | tempto-runner/src/main/java/io/prestodb/tempto/runner/TemptoRunnerOptions.java:163-166 | "TRUE" is not set, "true" is |
| RunnerOptions.ThreadCountExamples | tempto-runner/src/main/java/io/prestodb/tempto/runner/TemptoRunnerOptions.java:148-151 | "8" parses to 8, "eight" is IllegalArgument |
| RunnerOptions.LongNamesDistinct | tempto-runner/src/main/java/io/prestodb/tempto/runner/TemptoRunnerOptions.java:32-93 | the ten options have distinct long names |
| FpDiff.ParseAsType | test-framework-launch-script/src/main/python/fpdiff.py:75-92 | a token parses at a width exactly when it is a float and NaN or representable at that width without change, and then the value is the narrowed one |
| FpDiff.ToSigned | test-framework-launch-script/src/main/python/fpdiff.py:133-135 | unpacking as a signed integer of the width stays in the two's-complement range |
| FpDiff.FloatIsValid | test-framework-launch-script/src/main/python/fpdiff.py:182-187 | a Float has 1, 8 and 23 bits and the three masks of that layout |
| FpDiff.DoubleIsValid | test-framework-launch-script/src/main/python/fpdiff.py:189-194 | a Double has 1, 11 and 52 bits and the three masks of that layout |
| FpDiff.MaskBits | test-framework-launch-script/src/main/python/fpdiff.py:142-144 | the sign mask covers the bits from e+f up, the exponent mask bits f to e+f-1, the fraction mask bits below f |
| FpDiff.MasksPartition | test-framework-launch-script/src/main/python/fpdiff.py:142-144 | the three masks are pairwise disjoint and together cover every bit |
| FpDiff.SignMaskValue | test-framework-launch-script/src/main/python/fpdiff.py:142 | the sign mask is -2^(e+f) |
| FpDiff.FractionMaskValue | test-framework-launch-script/src/main/python/fpdiff.py:144 | the fraction mask is 2^f - 1 |
| FpDiff.ExponentMaskValue | test-framework-launch-script/src/main/python/fpdiff.py:143 | the exponent mask is 2^(e+f) - 2^f |
| FpDiff.ExponentMaskShifted | test-framework-launch-script/src/main/python/fpdiff.py:143 | the exponent mask is e ones shifted left by f |
| FpDiff.FloatMasks | test-framework-launch-script/src/main/python/fpdiff.py:183-187 | the float masks are 0x80000000 (as a negative int), 0x7F800000 and 0x007FFFFF |
| FpDiff.DoubleMasks | test-framework-launch-script/src/main/python/fpdiff.py:190-194 | the double masks are 0x8000000000000000 (as a negative int), 0x7FF0000000000000 and 0x000FFFFFFFFFFFFF |
| FpDiff.SignBitBits | test-framework-launch-script/src/main/python/fpdiff.py:149-150 | every bit of sign_bit is the sign of the raw bits |
| FpDiff.SignBitValue | test-framework-launch-script/src/main/python/fpdiff.py:149-150 | sign_bit is -1 for a negative raw value and 0 otherwise (Python's arithmetic shift) |
| FpDiff.MaskedBits | test-framework-launch-script/src/main/python/fpdiff.py:153-156 | masking keeps exactly the exponent field, and fraction_bits exactly the fraction field |
| FpDiff.ExponentAllSet | test-framework-launch-script/src/main/python/fpdiff.py:159 | the exponent test holds exactly when every exponent bit is set |
| FpDiff.FractionNonZero | test-framework-launch-script/src/main/python/fpdiff.py:160 | fraction_bits is non-zero exactly when some fraction bit is set |
| FpDiff.IsNaNBits | test-framework-launch-script/src/main/python/fpdiff.py:158-160 | is_nan holds exactly for all exponent bits set and some fraction bit set |
| FpDiff.ExponentBitsAsWrittenIsZero | test-framework-launch-script/src/main/python/fpdiff.py:152-153 | exponent_bits as written shifts by the fraction mask, not the fraction width, and is always 0 |
| FpDiff.ExponentBitsField | test-framework-launch-script/src/main/python/fpdiff.py:152-153 | the corrected exponent_bits is the non-negative exponent field |
| FpDiff.ExponentBitsDiscrepancy | test-framework-launch-script/src/main/python/fpdiff.py:152-153 | whenever the lowest exponent bit is set, the written and the corrected exponent_bits differ |
| FpDiff.AlmostEqualsCriteria | test-framework-launch-script/src/main/python/fpdiff.py:164-180 | an absolute difference within 1e-13 is equal; different signs are unequal otherwise; at most 4 ulps apart with the same sign is equal; otherwise the relative error decides, against the absolute difference when the expected value is 0 |
| FpDiff.NegativeDivisorAccepted | test-framework-launch-script/src/main/python/fpdiff.py:176-180 | as written, any two finite same-sign values with a negative expected value are accepted, since the relative error is negative |
| FpDiff.AlmostEqualsIntended | test-framework-launch-script/src/main/python/fpdiff.py:164-180 | the corrected comparison agrees with the written one for a non-negative expected value and divides by the magnitude for a negative one |
| FpDiff.AlmostEqualsReflexive | test-framework-launch-script/src/main/python/fpdiff.py:164-173 | every value is almost equal to itself, under the written and the corrected comparison |
| FpDiff.CompareTokensOrder | test-framework-launch-script/src/main/python/fpdiff.py:246-280 | tokens are compared as floats when both parse as floats, otherwise as doubles when both parse as doubles, otherwise as strings; two NaNs are equal; the numbers are compared by almost_equals as written or as corrected, whichever the caller chooses |
| FpDiff.CompareTokensReflexive | test-framework-launch-script/src/main/python/fpdiff.py:246-280 | every token matches itself |
| FpDiff.AllTokensMatchSpec | test-framework-launch-script/src/main/python/fpdiff.py:240-244 | the token loop holds exactly when every pair of tokens matches |
| FpDiff.CompareLinesSpec | test-framework-launch-script/src/main/python/fpdiff.py:227-244 | two lines match exactly when they split into the same number of tokens and the tokens match pairwise |
| FpDiff.CompareLinesReflexive | test-framework-launch-script/src/main/python/fpdiff.py:227-244 | every line matches itself |
| FpDiff.ReadLineAtEnd | test-framework-launch-script/src/main/python/fpdiff.py:212-213 | readline gives the next line, and the empty string exactly past the end |
| FpDiff.ScanLines | test-framework-launch-script/src/main/python/fpdiff.py:207-219 | the loop over the left file records exactly the mismatched line pairs, and stops with an EOF entry when the right file ends first |
| FpDiff.RecordLinePair | test-framework-launch-script/src/main/python/fpdiff.py:217-219 | one step records the pair exactly when the lines do not match |
| FpDiff.LinesMatchApplied | test-framework-launch-script/src/main/python/fpdiff.py:217-219 | the pair recorded for a line is the two lines, recorded exactly when they do not match |
| FpDiff.RightEndsFirst | test-framework-launch-script/src/main/python/fpdiff.py:213-215 | an EOF entry after the right file's last line gives the whole diff |
| FpDiff.DiffFiles | test-framework-launch-script/src/main/python/fpdiff.py:196-225 | the dictionary is Diff under compare_lines: each differing line pair at its 1-based number, and the EOF entries; the tokens are compared as fpdiff.py does or with the corrected almost_equals, whichever the caller chooses |
| FpDiff.PairMismatchesSpec | test-framework-launch-script/src/main/python/fpdiff.py:209-219 | line k is a mismatch exactly when the k-th lines do not match, and then holds both lines |
| FpDiff.DiffSelf | test-framework-launch-script/src/main/python/fpdiff.py:196-225 | a file diffed against itself has no mismatches when every line matches itself |
| FpDiff.DiffFilesSelf | test-framework-launch-script/src/main/python/fpdiff.py:196-225 | a file diffed against itself with the token comparison has no mismatches |
| FpDiff.DiffAcceptsNegativePair | test-framework-launch-script/src/main/python/fpdiff.py:196-225 | as written, two one-token lines with same-signed values, the right one negative and finite, are never reported, however far apart; with the corrected comparison they are reported at line 1 exactly when the tokens do not match |
| FpDiff.DiffPairs | test-framework-launch-script/src/main/python/fpdiff.py:209-223 | within the common length each mismatch is a differing line pair, except the last line when the right file is two or more lines longer |
| FpDiff.DiffRightEndsFirst | test-framework-launch-script/src/main/python/fpdiff.py:213-215 | a shorter right file gives an EOF entry on the line after its end, and no later entry |
| FpDiff.DiffRightLonger | test-framework-launch-script/src/main/python/fpdiff.py:221-223 | a right file two or more lines longer overwrites the last line's entry with EOF and the next right line; one line longer is not reported |

## Left out

Numerics, third-party code and I/O become parameters:

- FpDiff.Numerics: Python's `float()`, the `ctypes` narrowing to float and double, `struct.pack` and the real-valued `abs(a - b) <= t` and `abs(a - b) / b < t` tests are uninterpreted functions. The lemmas about signs assume only the sign laws stated by `FpDiff.SignLaws`.
- FpDiff.DiffFiles: requires a non-empty delimiter. For `-d ""`, which nothing rejects (fpdiff.py:293), the first `str.split` call raises ValueError and the script stops (fpdiff.py:235). The model does not represent that crash.
- The fpdiff.py command line (argparse, printing to stderr, running `diff`, the exit code) is I/O and is left out. The file reads are sequences of lines.
- ValueComparator.Compare: `DoubleMath.fuzzyCompare` with its tolerance (QueryResultValueComparator.java:204-217) and the `compareTo` of BigDecimal, Date, Time and Timestamp (lines 219-249) are the oracles `fuzzyCompare` and `compareOpaque`. Their tolerance and ordering are not modelled.
- QueryRowMapper.ConvertValue: parsing Double, Float, BigDecimal, Date, Time, Timestamp and hex binary cells is the oracle `Parses`. A parsed value is kept as its text.
- LegacyQueryRowMapper.AgreesWithNewer: timestamps are opaque text in both mappers. The older mapper reads them in UTC and the newer one in the JVM's zone; that difference is not captured.
- QueryAsserts: the `DECIMAL_FORMAT` rendering of floating-point cells in row messages is a parameter `format`.
- Values.Show: a Bytes, SqlArray or List value renders through `showOpaque(DoubleValue, "")`, not through Java's `String.valueOf`. Only null, strings, booleans and the integer kinds render exactly.
- RunnerCommandLineParsers.ParseCommandLine: the commons-cli `DefaultParser.parse` is a parameter. It returns a command line (present options with their values, and the leftover arguments) or fails. Its check that every required option is given is not built into that parameter. HonoursRequired states the check, and the lemmas that depend on it take it as a precondition. `printHelpMessage` only prints and is left out.
- The JDBC connection, the Cassandra session with its `prepare` and `bind`, and statement execution are left out. `JdbcTableManagers`, `InsertLoaders`, `LegacyInsertLoaders` and `CassandraBatchLoaders` append each statement, or each batch as its list of rows, to an effect log.
- JdbcTableManagers.PartitionBy: requires a partition size of at least 1. With 0, `next()` yields empty batches forever; the only caller passes the BATCH_SIZE constant.
- CassandraTpchDataSources: the TPC-H generator is left out. A generated line is a parameter, and the scale factor is a `real`.
- TpcdsDataSources: the TPC-DS generator (`generate`) and `getStatistics` (TpcdsDataSource.java:89-94, which loads a statistics repository) are left out.
- TpcdsDataSources.Utf8: encodes Unicode scalar values. Java's replacement of a lone UTF-16 surrogate is not captured.
- SqlQueryConventionBasedTests: running the before and after scripts, `dumpResults`, the FreeMarker `resolveTemplates` and the query-executor lookup are left out. The executor is a parameter.
- QueryResults: building a result from a JDBC `ResultSet` (QueryResult.java:189-196 and `addRows`, 223-236) is left out. A column without a name leaves no entry in the name map.
- QueryAsserts: the `column(...)` assertions (QueryAssert.java:351-378), `QueryExecutionAssert` (396-435), `updatedRowsCountIsEqualTo`, and `hasAnyRows` and `hasColumnsCount` as standalone assertions are left out.
- HiveTableDefinitions: `setNoData`, `setData` and `setRows` only choose the data source handed to HDFS, which is left out.
- MethodSelectors.IncludeMethodSpec: the current selector does not consult `isTestMethod`. The older one includes every method that is not a test method; `LegacyMethodSelectors.NonTestMethodsIncluded` states this.

Simplifications:

- Requirements.Compose: Java puts the wrapped arguments in a set where composites compare by identity, so the same composite instance passed twice counts once. Object identity and aliasing are not modelled: the model keeps a sequence and counts it twice. `Requirements.ComposeRepeated` shows where the two differ.
- HiveTableDefinitions.HiveTableDefinitionBuilder.AddPartition: Java keeps the partitions in one `ArrayList` that is shared, not copied. `build()` hands that list to the new definition (HiveTableDefinition.java:225-228), and `from(definition)` copies the definition's list reference into the builder (142-150). So an `addPartition` after `build()` also grows the definition already built, and `from(d).addPartition(...)` also grows `d`'s partitions (207-214). The model copies values: a built or copied definition keeps the partitions it had.
- LegacyHiveTableDefinitions.LegacyHiveTableDefinitionBuilder.AddPartition: the same sharing in the older class. `build()` hands the builder's list to the definition (legacy HiveTableDefinition.java:158-160), so a later `addPartition` (150-156) grows a definition already built. The model keeps the built definition's partitions as they were.
- Strings.EqualsIgnoreCase: case folding covers the ASCII letters only. Java's `equalsIgnoreCase` also folds other letters.
- Strings.ToUpper: upper-cases the ASCII letters only. Java's `toUpperCase` also maps other letters.
- Values.ParseSigned: accepts ASCII digits only. Java's `Integer.parseInt` and `Long.parseLong` also accept other Unicode decimal digits.
- MapConfigurations.Get: a leaf is never null. In Java, a null value under a key is a NullPointerException in `getObject` (MapConfiguration.java:88-90) and is reported absent by `get` (99-101).
- MapConfigurations.ListedKeysResolve: holds because a leaf is never null. In Java, `listKeys` still lists a key whose value is null (MapConfiguration.java:129-134), and that key does not resolve.
- MutableTableRequirements: the state is never null, so the `checkNotNull(state)` at MutableTableRequirement.java:49 has no counterpart.
- ValueComparator.Codes: compares Unicode scalar values, not UTF-16 code units. For strings with supplementary characters the sign of a non-zero result can differ from Java's `compareTo`. Whether the result is zero does not change.

## Findings

| source | as written | input that shows it | evidently intended | confidence | as-written member | corrected member |
|---|---|---|---|---|---|---|
| test-framework-launch-script/src/main/python/fpdiff.py:152-153 | `exponent_bits` shifts the masked bits right by `fraction_bitmask` (2^f - 1) instead of by `fraction_bitcount`, so it is always 0 | the Float of "1.0" (raw bits 0x3F800000, exponent field 127): as written 0 | the exponent field, `(bits & exponent_bitmask) >> fraction_bitcount` | not executed | FpDiff.ExponentBitsDiscrepancy | FpDiff.ExponentBitsField |
| test-framework-launch-script/src/main/python/fpdiff.py:176-180 | the relative error `abs_diff / that.value` is negative when the expected value is negative, so it is always below `max_relative_error` | tokens "-1.0" and "-2.0": same sign, 0x800000 ulps apart, abs_diff 1.0, relative error -0.5, reported equal | divide by the magnitude, `abs_diff / abs(that.value)` | not executed | FpDiff.NegativeDivisorAccepted | FpDiff.AlmostEqualsIntended |
