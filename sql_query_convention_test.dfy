/**
 * SqlQueryConventionBasedTest: the name of a convention-based SQL test,
 * the split of a query file's content into queries, and the run of those
 * queries, of which the last result is checked. Template resolution and
 * query execution are parameters.
 */
module SqlQueryConventionBasedTests {
  import opened Wrappers
  import opened Strings
  import opened TestProxyGenerators

  // ---------------------------------------------------------------------
  // Test names

  /** The characters of the regular expression class \s. */
  predicate IsRegexSpace(c: char)
  {
    c == ' ' || c == '\t' || c == '\n' || c == '\U{000B}' || c == '\U{000C}' || c == '\r'
  }

  /** A path separator of either kind, as FilenameUtils understands it. */
  predicate IsPathSeparator(c: char)
  {
    c == '/' || c == '\\'
  }

  /** The last position holding a character that satisfies `p`. */
  function LastIndexOf(s: string, p: char -> bool): (r: Option<nat>)
    ensures r.Some? ==> r.value < |s| && p(s[r.value]) && forall k :: r.value < k < |s| ==> !p(s[k])
    ensures r.None? ==> forall k :: 0 <= k < |s| ==> !p(s[k])
    decreases |s|
  {
    if s == [] then None
    else if p(s[|s| - 1]) then Some(|s| - 1)
    else LastIndexOf(s[..|s| - 1], p)
  }

  /** FilenameUtils.getBaseName: the part after the last separator, without its last extension. */
  function BaseName(fileName: string): string
  {
    var sep := LastIndexOf(fileName, IsPathSeparator);
    var name := if sep.None? then fileName else fileName[sep.value + 1..];
    var dot := LastIndexOf(name, c => c == '.');
    if dot.None? then name else name[..dot.value]
  }

  /**
   * getTestName: the prefix, '.', the base name of the query file; then
   * '.' and the section name without white space, or, for an unnamed
   * section in a file of several queries, '_' and the query's number.
   */
  function TestName(testNamePrefix: string, queryFile: string, sectionName: Option<string>,
                    queriesCount: int, testNumber: int): string
  {
    testNamePrefix + "." + BaseName(queryFile) + NameSuffix(sectionName, queriesCount, testNumber)
  }

  /** What follows the base name: '.' and the section name without white space, or '_' and the query's number. */
  function NameSuffix(sectionName: Option<string>, queriesCount: int, testNumber: int): string
  {
    if sectionName.Some? then "." + RemoveChars(sectionName.value, IsRegexSpace)
    else if queriesCount > 1 then "_" + IntToString(testNumber)
    else ""
  }

  // ---------------------------------------------------------------------
  // Splitting the content into queries

  /** The first position at or after j that is not a space. */
  function SpacesEnd(s: string, j: nat): (r: nat)
    requires j <= |s|
    ensures j <= r <= |s| && (r < |s| ==> s[r] != ' ')
    ensures forall k :: j <= k < r ==> s[k] == ' '
    decreases |s| - j
  {
    if j < |s| && s[j] == ' ' then SpacesEnd(s, j + 1) else j
  }

  /**
   * Where a match of the pattern [;][ ]*\r?\n starting at i ends, if one
   * starts there: the spaces are taken greedily, and giving some back
   * cannot help, since a space is neither '\r' nor '\n'.
   */
  function SeparatorEnd(s: string, i: nat): (r: Option<nat>)
    requires i <= |s|
    ensures r.Some? ==> i < r.value <= |s| && s[i] == ';' && s[r.value - 1] == '\n'
  {
    if i < |s| && s[i] == ';' then
      var j := SpacesEnd(s, i + 1);
      if j < |s| && s[j] == '\n' then Some(j + 1)
      else if j + 1 < |s| && s[j] == '\r' && s[j + 1] == '\n' then Some(j + 2)
      else None
    else None
  }

  /** The leftmost match at or after i, as (start, end). */
  function FirstSeparator(s: string, i: nat): (r: Option<(nat, nat)>)
    requires i <= |s|
    ensures r.Some? ==> i <= r.value.0 < r.value.1 <= |s| && SeparatorEnd(s, r.value.0) == Some(r.value.1)
    ensures r.Some? ==> forall k :: i <= k < r.value.0 ==> SeparatorEnd(s, k).None?
    ensures r.None? ==> forall k :: i <= k <= |s| ==> SeparatorEnd(s, k).None?
    decreases |s| - i
  {
    if i == |s| then None
    else
      var e := SeparatorEnd(s, i);
      if e.Some? then Some((i, e.value)) else FirstSeparator(s, i + 1)
  }

  /** Splitter.onPattern("[;][ ]*\r?\n").split: the pieces between the matches, empty ones included. */
  function SplitAtSeparators(s: string): (r: seq<string>)
    ensures |r| >= 1
    decreases |s|
  {
    match FirstSeparator(s, 0)
    case None => [s]
    case Some((start, end)) => [s[..start]] + SplitAtSeparators(s[end..])
  }

  /** The non-empty strings, in order. */
  function NonEmpty(pieces: seq<string>): (r: seq<string>)
    ensures forall k :: 0 <= k < |r| ==> r[k] != ""
    ensures |r| <= |pieces|
  {
    if pieces == [] then []
    else if pieces[0] == "" then NonEmpty(pieces[1..])
    else [pieces[0]] + NonEmpty(pieces[1..])
  }

  /** splitQueries: the pieces, without the empty ones. */
  function SplitQueries(content: string): (r: seq<string>)
    ensures forall k :: 0 <= k < |r| ==> r[k] != ""
  {
    NonEmpty(SplitAtSeparators(content))
  }

  /**
   * runTestQuery: at least one query is needed (IllegalStateException);
   * every query is resolved and executed in order, and the last result is
   * the test's result. `executed` is the SQL handed to the executor.
   */
  method RunTestQuery<R>(content: string, resolveTemplates: string -> string, executeQuery: string -> R)
    returns (r: Result<R>, executed: seq<string>)
    ensures var queries := SplitQueries(content);
      queries == [] ==> r == Fail(IllegalState) && executed == []
    ensures var queries := SplitQueries(content);
      queries != [] ==>
        |executed| == |queries| &&
        (forall k :: 0 <= k < |queries| ==> executed[k] == resolveTemplates(queries[k])) &&
        r == Ok(executeQuery(executed[|executed| - 1]))
  {
    var queries := SplitQueries(content);
    executed := [];
    if queries == [] {
      return Fail(IllegalState), executed;
    }
    var queryResult := executeQuery(resolveTemplates(queries[0]));
    executed := [resolveTemplates(queries[0])];
    for k := 1 to |queries|
      invariant |executed| == k
      invariant forall m :: 0 <= m < k ==> executed[m] == resolveTemplates(queries[m])
      invariant queryResult == executeQuery(executed[k - 1])
    {
      var sql := resolveTemplates(queries[k]);
      queryResult := executeQuery(sql);
      executed := executed + [sql];
    }
    r := Ok(queryResult);
  }

  // ---------------------------------------------------------------------
  // Lemmas

  /** A query separator: ';', n spaces, and a line end with or without '\r'. */
  function Separator(spaces: nat, crlf: bool): (r: string)
    ensures |r| >= 2 && r[0] == ';' && r[|r| - 1] == '\n'
  {
    ";" + seq(spaces, _ => ' ') + (if crlf then "\r\n" else "\n")
  }

  /** Positions without a separator start are skipped. */
  lemma {:induction false} FirstSeparatorSkip(s: string, i: nat, k: nat)
    requires i <= k <= |s|
    requires forall j :: i <= j < k ==> SeparatorEnd(s, j).None?
    ensures FirstSeparator(s, i) == FirstSeparator(s, k)
    decreases k - i
  {
    if i < k {
      assert FirstSeparator(s, i) == FirstSeparator(s, i + 1) by {
        FirstSeparatorStep(s, i);
      }
      assert FirstSeparator(s, i + 1) == FirstSeparator(s, k) by {
        FirstSeparatorSkip(s, i + 1, k);
      }
    }
  }

  /** A position where no separator starts is passed over. */
  lemma FirstSeparatorStep(s: string, i: nat)
    requires i < |s| && SeparatorEnd(s, i).None?
    ensures FirstSeparator(s, i) == FirstSeparator(s, i + 1)
  {
  }

  /** A run of n spaces followed by something else ends n further on. */
  lemma {:induction false} SpacesEndAt(s: string, j: nat, n: nat)
    requires j + n < |s| && s[j + n] != ' '
    requires forall k :: j <= k < j + n ==> s[k] == ' '
    ensures SpacesEnd(s, j) == j + n
    decreases n
  {
    if n > 0 {
      SpacesEndAt(s, j + 1, n - 1);
    }
  }

  /** In q + separator + rest with no ';' in q, the first match is the separator. */
  lemma FirstSeparatorAfter(q: string, spaces: nat, crlf: bool, rest: string)
    requires ';' !in q
    ensures var sep := Separator(spaces, crlf);
      FirstSeparator(q + sep + rest, 0) == Some((|q|, |q| + |sep|))
  {
    var sep := Separator(spaces, crlf);
    var s := q + sep + rest;
    forall j | 0 <= j < |q|
      ensures SeparatorEnd(s, j).None?
    {
      assert s[j] == q[j];
    }
    FirstSeparatorSkip(s, 0, |q|);
    SpacesEndAt(s, |q| + 1, spaces);
  }

  /** The piece before the first separator comes off first. */
  lemma SplitAtSeparatorsCons(q: string, spaces: nat, crlf: bool, rest: string)
    requires ';' !in q
    ensures SplitAtSeparators(q + Separator(spaces, crlf) + rest) == [q] + SplitAtSeparators(rest)
  {
    var sep := Separator(spaces, crlf);
    var s := q + sep + rest;
    FirstSeparatorAfter(q, spaces, crlf, rest);
    assert s[..|q|] == q;
    assert s[|q| + |sep|..] == rest;
  }

  /** Without ';' in the content nothing is split off. */
  lemma NoSemicolonOnePiece(s: string)
    requires ';' !in s
    ensures SplitAtSeparators(s) == [s]
  {
    FirstSeparatorSkip(s, 0, |s|);
  }

  /**
   * Queries without ';' joined by separators split back into the same
   * pieces, empty ones included.
   */
  lemma {:induction false} SplitAtSeparatorsJoin(queries: seq<string>, spaces: nat, crlf: bool)
    requires |queries| >= 1
    requires forall k :: 0 <= k < |queries| ==> ';' !in queries[k]
    ensures SplitAtSeparators(Join(queries, Separator(spaces, crlf))) == queries
  {
    var sep := Separator(spaces, crlf);
    if |queries| == 1 {
      NoSemicolonOnePiece(queries[0]);
    } else {
      var rest := Join(queries[1..], sep);
      assert Join(queries, sep) == queries[0] + sep + rest;
      SplitAtSeparatorsCons(queries[0], spaces, crlf, rest);
      SplitAtSeparatorsJoin(queries[1..], spaces, crlf);
      assert queries == [queries[0]] + queries[1..];
    }
  }

  /**
   * splitQueries of queries joined by separators gives the non-empty ones
   * back in order: a file ending in ";\n" adds no query.
   */
  lemma SplitQueriesJoin(queries: seq<string>, spaces: nat, crlf: bool)
    requires |queries| >= 1
    requires forall k :: 0 <= k < |queries| ==> ';' !in queries[k]
    ensures SplitQueries(Join(queries, Separator(spaces, crlf))) == NonEmpty(queries)
  {
    SplitAtSeparatorsJoin(queries, spaces, crlf);
  }

  /** Content without a line break is a single query, or none when empty: "a; b" is one query. */
  lemma NoLineBreakOneQuery(s: string)
    requires '\n' !in s
    ensures SplitQueries(s) == if s == "" then [] else [s]
  {
    forall j | 0 <= j <= |s|
      ensures SeparatorEnd(s, j).None?
    {
    }
    FirstSeparatorSkip(s, 0, |s|);
  }

  /** getBaseName of "stem.ext" is the stem, for names without a directory part. */
  lemma BaseNameOfFile(stem: string, ext: string)
    requires '.' !in ext
    requires forall k :: 0 <= k < |stem| ==> !IsPathSeparator(stem[k])
    requires forall k :: 0 <= k < |ext| ==> !IsPathSeparator(ext[k])
    ensures BaseName(stem + "." + ext) == stem
  {
    var f := stem + "." + ext;
    assert forall k :: 0 <= k < |f| ==> !IsPathSeparator(f[k]) by {
      forall k | 0 <= k < |f|
        ensures !IsPathSeparator(f[k])
      {
        if k < |stem| {
          assert f[k] == stem[k];
        } else if k > |stem| {
          assert f[k] == ext[k - |stem| - 1];
        }
      }
    }
    assert f[|stem|] == '.';
    assert forall k :: |stem| < k < |f| ==> f[k] == ext[k - |stem| - 1];
    assert LastIndexOf(f, c => c == '.') == Some(|stem|);
    assert f[..|stem|] == stem;
  }

  /**
   * The proxy names of a named section: for a prefix and base name of
   * segments without '.', the class is named after the file and the method
   * after the section name, stripped of white space.
   */
  lemma NamedTestProxyNames(testPackage: string, prefix: seq<string>, queryFile: string, name: string,
                            queriesCount: int, testNumber: int)
    requires |prefix| >= 1 && forall k :: 0 <= k < |prefix| ==> '.' !in prefix[k]
    requires '.' !in BaseName(queryFile) && '.' !in name
    ensures var testName := TestName(Join(prefix, "."), queryFile, Some(name), queriesCount, testNumber);
      GeneratedClassName(testPackage, testName) == Ok(testPackage + "." + ToJavaSymbol(BaseName(queryFile))) &&
      GeneratedMethodName(testName) == ToJavaSymbol(RemoveChars(name, IsRegexSpace))
  {
    var tail := [BaseName(queryFile), RemoveChars(name, IsRegexSpace)];
    NamedTestName(prefix, queryFile, name, queriesCount, testNumber);
    NamesAfterPrefix(testPackage, TestName(Join(prefix, "."), queryFile, Some(name), queriesCount, testNumber), prefix, tail);
  }

  /** The proxy names of a test named by dot-free segments: the last two of them, or the prefix's last and the only one. */
  lemma NamesAfterPrefix(testPackage: string, testName: string, prefix: seq<string>, tail: seq<string>)
    requires |prefix| >= 1 && 1 <= |tail| <= 2
    requires testName == Join(prefix + tail, ".")
    requires forall k :: 0 <= k < |prefix + tail| ==> '.' !in (prefix + tail)[k]
    ensures GeneratedClassName(testPackage, testName) ==
      Ok(testPackage + "." + ToJavaSymbol(if |tail| == 2 then tail[0] else prefix[|prefix| - 1]))
    ensures GeneratedMethodName(testName) == ToJavaSymbol(tail[|tail| - 1])
  {
    var segments := prefix + tail;
    SplitJoinChar(segments, '.');
    SegmentNames(testPackage, testName, prefix, tail);
  }

  lemma SegmentNames(testPackage: string, testName: string, prefix: seq<string>, tail: seq<string>)
    requires |prefix| >= 1 && 1 <= |tail| <= 2
    requires SplitOn(testName, ".") == prefix + tail
    ensures GeneratedClassName(testPackage, testName) ==
      Ok(testPackage + "." + ToJavaSymbol(if |tail| == 2 then tail[0] else prefix[|prefix| - 1]))
    ensures GeneratedMethodName(testName) == ToJavaSymbol(tail[|tail| - 1])
  {
    var segments := prefix + tail;
    var cls, meth := LastSegments(prefix, tail);
    NamesOfSegments(testPackage, testName, segments);
    assert ToJavaSymbol(segments[|segments| - 2]) == ToJavaSymbol(cls);
    assert ToJavaSymbol(segments[|segments| - 1]) == ToJavaSymbol(meth);
  }

  /** The last two segments after a prefix: the class segment and the method segment. */
  lemma LastSegments(prefix: seq<string>, tail: seq<string>) returns (cls: string, meth: string)
    requires |prefix| >= 1 && 1 <= |tail| <= 2
    ensures cls == (if |tail| == 2 then tail[0] else prefix[|prefix| - 1]) && meth == tail[|tail| - 1]
    ensures var segments := prefix + tail;
      segments[|segments| - 2] == cls && segments[|segments| - 1] == meth
  {
    cls := if |tail| == 2 then tail[0] else prefix[|prefix| - 1];
    meth := tail[|tail| - 1];
  }

  lemma NamedTestName(prefix: seq<string>, queryFile: string, name: string, queriesCount: int, testNumber: int)
    requires |prefix| >= 1 && forall k :: 0 <= k < |prefix| ==> '.' !in prefix[k]
    requires '.' !in BaseName(queryFile) && '.' !in name
    ensures var segments := prefix + [BaseName(queryFile), RemoveChars(name, IsRegexSpace)];
      TestName(Join(prefix, "."), queryFile, Some(name), queriesCount, testNumber) == Join(prefix + [BaseName(queryFile), RemoveChars(name, IsRegexSpace)], ".") &&
      forall k :: 0 <= k < |segments| ==> '.' !in segments[k]
  {
    var base := BaseName(queryFile);
    var stripped := RemoveChars(name, IsRegexSpace);
    RemoveCharsSubset(name, IsRegexSpace, '.');
    JoinSegments(prefix, [base, stripped]);
    assert Join([base, stripped], ".") == base + "." + stripped by {
      assert [base, stripped][1..] == [stripped];
    }
    ConcatAssoc(Join(prefix, ".") + ".", base, "." + stripped);
    ConcatAssoc(base, ".", stripped);
  }

  /**
   * The proxy names of an unnamed section: the class is named after the
   * last segment of the prefix, the method after the file (with its
   * number when the file has several queries).
   */
  lemma UnnamedTestProxyNames(testPackage: string, prefix: seq<string>, queryFile: string,
                              queriesCount: int, testNumber: nat)
    requires |prefix| >= 1 && forall k :: 0 <= k < |prefix| ==> '.' !in prefix[k]
    requires '.' !in BaseName(queryFile)
    ensures var testName := TestName(Join(prefix, "."), queryFile, None, queriesCount, testNumber);
      var last := BaseName(queryFile) + if queriesCount > 1 then "_" + NatToString(testNumber) else "";
      GeneratedClassName(testPackage, testName) == Ok(testPackage + "." + ToJavaSymbol(prefix[|prefix| - 1])) &&
      GeneratedMethodName(testName) == ToJavaSymbol(last)
  {
    UnnamedSuffix(queriesCount, testNumber);
    UnnamedTestName(prefix, queryFile, queriesCount, testNumber);
    var last := BaseName(queryFile) + NameSuffix(None, queriesCount, testNumber);
    NamesAfterPrefix(testPackage, TestName(Join(prefix, "."), queryFile, None, queriesCount, testNumber), prefix, [last]);
  }

  lemma UnnamedTestName(prefix: seq<string>, queryFile: string, queriesCount: int, testNumber: nat)
    requires |prefix| >= 1 && forall k :: 0 <= k < |prefix| ==> '.' !in prefix[k]
    requires '.' !in BaseName(queryFile)
    ensures var last := BaseName(queryFile) + NameSuffix(None, queriesCount, testNumber);
      var segments := prefix + [last];
      TestName(Join(prefix, "."), queryFile, None, queriesCount, testNumber) == Join(segments, ".") &&
      forall k :: 0 <= k < |segments| ==> '.' !in segments[k]
  {
    var base := BaseName(queryFile);
    var suffix := NameSuffix(None, queriesCount, testNumber);
    UnnamedSuffix(queriesCount, testNumber);
    assert '.' !in base + suffix;
    JoinSegments(prefix, [base + suffix]);
    assert Join([base + suffix], ".") == base + suffix;
    ConcatAssoc(Join(prefix, ".") + ".", base, suffix);
  }

  /** The number suffix of an unnamed test: '_' and the number's digits, when the file has several queries. */
  lemma UnnamedSuffix(queriesCount: int, testNumber: nat)
    ensures NameSuffix(None, queriesCount, testNumber) == if queriesCount > 1 then "_" + NatToString(testNumber) else ""
    ensures '.' !in NameSuffix(None, queriesCount, testNumber)
  {
    if queriesCount > 1 {
      DigitsOnly(testNumber);
    }
  }

  lemma ConcatAssoc(a: string, b: string, c: string)
    ensures a + b + c == a + (b + c)
  {
  }

  /** Segments joined after the prefix, none of them holding '.'. */
  lemma JoinSegments(prefix: seq<string>, tail: seq<string>)
    requires |prefix| >= 1 && |tail| >= 1
    requires forall k :: 0 <= k < |prefix| ==> '.' !in prefix[k]
    requires forall k :: 0 <= k < |tail| ==> '.' !in tail[k]
    ensures Join(prefix + tail, ".") == Join(prefix, ".") + "." + Join(tail, ".")
    ensures forall k :: 0 <= k < |prefix + tail| ==> '.' !in (prefix + tail)[k]
  {
    JoinConcat(prefix, tail, ".");
  }

  /** Removing characters adds none. */
  lemma {:induction false} RemoveCharsSubset(s: string, drop: char -> bool, c: char)
    requires c !in s
    ensures c !in RemoveChars(s, drop)
  {
    if s != [] {
      RemoveCharsSubset(s[1..], drop, c);
    }
  }
}
