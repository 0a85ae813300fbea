/**
 * HeaderFileParser: the older convention-file format. An optional first line
 * "-- k: v; k2: v2" holds the file's properties; the remaining lines, less
 * comment lines and blank lines, are the content.
 */
module HeaderFileParser {
  import opened Wrappers
  import opened Strings
  import MapSplitter

  const COMMENT_PREFIX: string := "--"

  predicate IsCommentLine(line: string)
  {
    StartsWith(line, COMMENT_PREFIX)
  }

  datatype ParsingResult = ParsingResult(commentProperties: map<string, string>, contentLines: seq<string>)
  {
    function GetProperty(key: string): Option<string>
    {
      if key in commentProperties then Some(commentProperties[key]) else None
    }

    /** The content lines joined by single spaces. */
    function GetContent(): string
    {
      Join(contentLines, " ")
    }
  }

  /** Drops comment lines and blank lines, keeping the order of the rest. */
  function FilterContent(lines: seq<string>): (r: seq<string>)
    ensures |r| <= |lines|
    ensures forall k :: 0 <= k < |r| ==> !IsCommentLine(r[k]) && !IsBlankText(r[k])
  {
    if lines == [] then []
    else if IsCommentLine(lines[0]) || IsBlankText(lines[0]) then FilterContent(lines[1..])
    else [lines[0]] + FilterContent(lines[1..])
  }

  /** parseCommentLine: the properties after the "--" prefix (the caller has checked the prefix). */
  function ParseCommentLine(line: string): Result<map<string, string>>
    requires IsCommentLine(line)
  {
    MapSplitter.SplitProperties(line[|COMMENT_PREFIX|..])
  }

  /** parseFile over the lines of a file; a malformed header is an IllegalArgumentException. */
  function ParseFile(lines: seq<string>): Result<ParsingResult>
  {
    var firstLine := if lines == [] then "" else lines[0];
    if IsCommentLine(firstLine) then
      match ParseCommentLine(firstLine)
      case Fail(e) => Fail(e)
      case Ok(props) => Ok(ParsingResult(props, FilterContent(lines[1..])))
    else
      Ok(ParsingResult(map[], FilterContent(lines)))
  }

  // ---------------------------------------------------------------------
  // Lemmas

  lemma {:induction false} FilterContentAppend(a: seq<string>, b: seq<string>)
    ensures FilterContent(a + b) == FilterContent(a) + FilterContent(b)
  {
    if a != [] {
      assert (a + b)[1..] == a[1..] + b;
      FilterContentAppend(a[1..], b);
    } else {
      assert a + b == b;
    }
  }

  /** A line survives the filter exactly when it is neither a comment nor blank. */
  lemma {:induction false} FilterContentMembers(lines: seq<string>, x: string)
    ensures x in FilterContent(lines) <==> x in lines && !IsCommentLine(x) && !IsBlankText(x)
  {
    if lines != [] {
      FilterContentMembers(lines[1..], x);
      assert x in lines <==> x == lines[0] || x in lines[1..];
    }
  }

  /** Filtering twice changes nothing. */
  lemma {:induction false} FilterContentIdempotent(lines: seq<string>)
    ensures FilterContent(FilterContent(lines)) == FilterContent(lines)
  {
    if lines != [] {
      FilterContentIdempotent(lines[1..]);
      if !(IsCommentLine(lines[0]) || IsBlankText(lines[0])) {
        var rest := FilterContent(lines[1..]);
        assert ([lines[0]] + rest)[1..] == rest;
      }
    }
  }

  /** A file without a header line has no properties and keeps all its content lines. */
  lemma NoHeader(lines: seq<string>)
    requires lines == [] || !IsCommentLine(lines[0])
    ensures ParseFile(lines) == Ok(ParsingResult(map[], FilterContent(lines)))
    ensures lines == [] ==> ParseFile(lines).value.GetContent() == ""
  {
  }

  /**
   * A header line written from distinct, writable pairs is read back: the
   * result holds exactly those properties, and the content is the filtered
   * body.
   */
  lemma HeaderRoundTrip(pairs: seq<(string, string)>, body: seq<string>)
    requires forall k :: 0 <= k < |pairs| ==> MapSplitter.Writable(pairs[k].0) && MapSplitter.Writable(pairs[k].1)
    requires MapSplitter.DistinctKeys(pairs)
    ensures var r := ParseFile([COMMENT_PREFIX + MapSplitter.Render(pairs)] + body);
      r.Ok? && r.value.contentLines == FilterContent(body) &&
      r.value.commentProperties.Keys == MapSplitter.KeysOf(pairs) &&
      forall k :: 0 <= k < |pairs| ==> r.value.GetProperty(pairs[k].0) == Some(pairs[k].1)
  {
    var header := COMMENT_PREFIX + MapSplitter.Render(pairs);
    var lines := [header] + body;
    assert header[..|COMMENT_PREFIX|] == COMMENT_PREFIX;
    assert header[|COMMENT_PREFIX|..] == MapSplitter.Render(pairs);
    assert lines[1..] == body;
    MapSplitter.SplitRender(pairs);
  }

  /** Content lines with no spaces in them split back out of getContent. */
  lemma ContentRoundTrip(r: ParsingResult)
    requires r.contentLines != [] && forall k :: 0 <= k < |r.contentLines| ==> ' ' !in r.contentLines[k]
    ensures SplitOn(r.GetContent(), " ") == r.contentLines
  {
    SplitJoinChar(r.contentLines, ' ');
  }
}
