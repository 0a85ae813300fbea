/**
 * AnnotatedFileParser: a convention file is a sequence of lines split into
 * sections at every "--!" line after the first line. "--" lines carry
 * "k: v; k2: v2" properties, "---" lines are comments and "--!" lines open a
 * section and may carry properties too. The content of a section is its
 * non-special, non-blank lines, each with one leading backslash removed and
 * each literal "\n" turned into a newline.
 *
 * Reading the file into lines (commons-io readLines) is I/O: the model starts
 * from the lines, which contain no line terminator.
 */
module AnnotatedFileParser {
  import opened Wrappers
  import opened Strings
  import MapSplitter

  const PROPERTIES_PREFIX: string := "--"
  const COMMENT_PREFIX: string := "---"
  const SECTION_PREFIX: string := "--!"
  const SECTION_NAME_KEY: string := "name"
  const NEW_LINE_LITERAL: string := "\\n"
  const LINE_ESCAPE: string := "\\"

  // ---------------------------------------------------------------------
  // Line classes

  predicate IsCommentLine(line: string)
  {
    StartsWith(line, COMMENT_PREFIX)
  }

  predicate IsSectionLine(line: string)
  {
    StartsWith(line, SECTION_PREFIX)
  }

  predicate IsPropertiesLine(line: string)
  {
    StartsWith(line, PROPERTIES_PREFIX) && !IsCommentLine(line) && !IsSectionLine(line)
  }

  predicate IsSpecialLine(line: string)
  {
    IsPropertiesLine(line) || IsCommentLine(line) || IsSectionLine(line)
  }

  predicate LineHasProperties(line: string)
  {
    IsPropertiesLine(line) || IsSectionLine(line)
  }

  /**
   * The three classes are mutually exclusive, and a line is special exactly
   * when it starts with "--".
   */
  lemma LineClasses(line: string)
    ensures !(IsCommentLine(line) && IsSectionLine(line))
    ensures !(IsPropertiesLine(line) && (IsCommentLine(line) || IsSectionLine(line)))
    ensures IsSpecialLine(line) <==> StartsWith(line, "--")
  {
    PrefixAt(line, COMMENT_PREFIX, 2);
    PrefixAt(line, SECTION_PREFIX, 2);
    if IsCommentLine(line) || IsSectionLine(line) {
      assert line[..2] == line[..3][..2];
    }
  }

  lemma PrefixAt(s: string, p: string, i: nat)
    requires i < |p|
    ensures StartsWith(s, p) ==> i < |s| && s[i] == p[i]
  {
    if StartsWith(s, p) {
      assert s[..|p|][i] == p[i];
    }
  }

  /** parseLineProperties: the properties after the "--" or "--!" prefix. */
  function LineProperties(line: string): Result<map<string, string>>
  {
    if !LineHasProperties(line) then Fail(IllegalArgument)
    else
      var prefix := if IsPropertiesLine(line) then PROPERTIES_PREFIX else SECTION_PREFIX;
      MapSplitter.SplitProperties(line[|prefix|..])
  }

  // ---------------------------------------------------------------------
  // Sections

  /** `r` is the first index from 1 on that holds a section line, or -1 when there is none. */
  predicate NextSectionAt(lines: seq<string>, r: int)
  {
    (r == -1 || 1 <= r < |lines|) &&
    (r == -1 ==> forall j :: 1 <= j < |lines| ==> !IsSectionLine(lines[j])) &&
    (r != -1 ==> IsSectionLine(lines[r]) && forall j :: 1 <= j < r ==> !IsSectionLine(lines[j]))
  }

  /**
   * findNextSectionIndex: the first index from 1 on that holds a section
   * line, or -1.
   */
  method FindNextSectionIndex(lines: seq<string>) returns (r: int)
    ensures NextSectionAt(lines, r)
  {
    var i := 1;
    while i < |lines|
      invariant 1 <= i <= |lines| || (i == 1 && |lines| == 0)
      invariant forall j :: 1 <= j < i && j < |lines| ==> !IsSectionLine(lines[j])
    {
      if IsSectionLine(lines[i]) {
        return i;
      }
      i := i + 1;
    }
    return -1;
  }

  function Concat(sections: seq<seq<string>>): seq<string>
  {
    if sections == [] then [] else sections[0] + Concat(sections[1..])
  }

  lemma {:induction false} ConcatAppend(sections: seq<seq<string>>, last: seq<string>)
    ensures Concat(sections + [last]) == Concat(sections) + last
  {
    if sections != [] {
      assert (sections + [last])[1..] == sections[1..] + [last];
      ConcatAppend(sections[1..], last);
    } else {
      assert [last][1..] == [];
    }
  }

  /** The shape splitSections produces: every section after the first opens with a "--!" line and holds no other. */
  predicate WellSectioned(sections: seq<seq<string>>)
  {
    (forall k :: 1 <= k < |sections| ==> sections[k] != [] && IsSectionLine(sections[k][0])) &&
    (forall k, j :: 0 <= k < |sections| && 1 <= j < |sections[k]| ==> !IsSectionLine(sections[k][j]))
  }

  /** One more section keeps the shape: it opens with a "--!" line unless it is the first, and holds no other. */
  lemma SectionAppend(sections: seq<seq<string>>, section: seq<string>)
    requires WellSectioned(sections)
    requires sections != [] ==> section != [] && IsSectionLine(section[0])
    requires forall j :: 1 <= j < |section| ==> !IsSectionLine(section[j])
    ensures WellSectioned(sections + [section])
  {
  }

  /**
   * splitSections: cuts the lines before every section line after the
   * first. The sections concatenate back to the input; the result is never
   * empty, and only empty input gives an empty section.
   */
  method SplitSections(lines: seq<string>) returns (sections: seq<seq<string>>)
    ensures |sections| >= 1
    ensures Concat(sections) == lines
    ensures WellSectioned(sections)
    ensures lines == [] ==> sections == [[]]
    ensures lines != [] ==> forall k :: 0 <= k < |sections| ==> sections[k] != []
  {
    sections := [];
    var rest := lines;
    var nextSectionIndex := FindNextSectionIndex(rest);
    while nextSectionIndex != -1
      invariant NextSectionAt(rest, nextSectionIndex)
      invariant SplitSoFar(sections, rest, lines)
      decreases |rest|
    {
      SplitStep(sections, rest, lines, nextSectionIndex);
      sections := sections + [rest[..nextSectionIndex]];
      rest := rest[nextSectionIndex..];
      nextSectionIndex := FindNextSectionIndex(rest);
    }
    SplitLast(sections, rest, lines);
    if rest != [] || sections == [] {
      sections := sections + [rest];
    }
  }

  /** The loop state of splitSections: sections cut so far, then the lines not cut yet. */
  predicate SplitSoFar(sections: seq<seq<string>>, rest: seq<string>, lines: seq<string>)
  {
    Concat(sections) + rest == lines && WellSectioned(sections) &&
    (forall k :: 0 <= k < |sections| ==> sections[k] != []) &&
    (sections != [] ==> rest != [] && IsSectionLine(rest[0]))
  }

  /** Cutting before the next section line keeps the loop state. */
  lemma SplitStep(sections: seq<seq<string>>, rest: seq<string>, lines: seq<string>, n: int)
    requires SplitSoFar(sections, rest, lines) && NextSectionAt(rest, n) && n != -1
    ensures 0 < n < |rest| && SplitSoFar(sections + [rest[..n]], rest[n..], lines)
  {
    var section := rest[..n];
    ConcatAppend(sections, section);
    SectionAppend(sections, section);
    assert section + rest[n..] == rest;
    assert Concat(sections + [section]) + rest[n..] == Concat(sections) + (section + rest[n..]);
  }

  /** With no section line left, the rest is the last section (or the only, empty one). */
  lemma SplitLast(sections: seq<seq<string>>, rest: seq<string>, lines: seq<string>)
    requires SplitSoFar(sections, rest, lines) && NextSectionAt(rest, -1)
    ensures var result := if rest != [] || sections == [] then sections + [rest] else sections;
      |result| >= 1 && Concat(result) == lines && WellSectioned(result) &&
      (lines == [] ==> result == [[]]) &&
      (lines != [] ==> forall k :: 0 <= k < |result| ==> result[k] != [])
  {
    if rest != [] || sections == [] {
      ConcatAppend(sections, rest);
      SectionAppend(sections, rest);
    }
  }

  // ---------------------------------------------------------------------
  // Properties of a section

  /** Two property maps give some key different values. */
  predicate Differ(a: map<string, string>, b: map<string, string>)
  {
    exists k :: k in a && k in b && a[k] != b[k]
  }

  /** The properties collected over `lines`, starting from `acc`, as the forEach in parseSection does. */
  function SectionProperties(acc: map<string, string>, lines: seq<string>): Result<map<string, string>>
    decreases |lines|
  {
    if lines == [] then Ok(acc)
    else if !LineHasProperties(lines[0]) then SectionProperties(acc, lines[1..])
    else match LineProperties(lines[0])
      case Fail(e) => Fail(e)
      case Ok(lp) =>
        if Differ(acc, lp) then Fail(IllegalState)
        else SectionProperties(acc + lp, lines[1..])
  }

  /** The content of a section: kept lines, unescaped, with literal "\n" turned into newlines. */
  predicate Kept(line: string)
  {
    !(IsSpecialLine(line) || IsBlankText(line))
  }

  /** unescapeLine */
  function UnescapeLine(s: string): string
  {
    if StartsWith(s, LINE_ESCAPE) then s[1..] else s
  }

  function TransformLine(line: string): string
  {
    ReplaceAll(UnescapeLine(line), NEW_LINE_LITERAL, "\n")
  }

  /** filterContent */
  function FilterContent(lines: seq<string>): (r: seq<string>)
    ensures |r| <= |lines|
  {
    if lines == [] then []
    else if Kept(lines[0]) then [TransformLine(lines[0])] + FilterContent(lines[1..])
    else FilterContent(lines[1..])
  }

  datatype SectionParsingResult = SectionParsingResult(
    sectionName: Option<string>,
    sectionLines: seq<string>,
    properties: map<string, string>,
    contentLines: seq<string>)
  {
    function GetProperty(key: string): Option<string>
    {
      if key in properties then Some(properties[key]) else None
    }

    function GetOriginalContent(): string
    {
      Join(sectionLines, "\n")
    }

    function GetContent(): string
    {
      Join(contentLines, "\n")
    }

    function GetContentAsSingleLine(): string
    {
      Join(contentLines, " ")
    }
  }

  /** What parseSection returns for the lines of one section. */
  function ParsedSection(lines: seq<string>): Result<SectionParsingResult>
  {
    match SectionProperties(map[], lines)
    case Fail(e) => Fail(e)
    case Ok(props) =>
      var name := if SECTION_NAME_KEY in props then Some(props[SECTION_NAME_KEY]) else None;
      Ok(SectionParsingResult(name, lines, props, FilterContent(lines)))
  }

  /**
   * parseSection: merges the properties of every property-bearing line into
   * one map, failing when two lines give a key different values.
   */
  method ParseSection(lines: seq<string>) returns (r: Result<SectionParsingResult>)
    ensures r == ParsedSection(lines)
  {
    var properties: map<string, string> := map[];
    var i := 0;
    while i < |lines|
      invariant 0 <= i <= |lines|
      invariant SectionProperties(map[], lines) == SectionProperties(properties, lines[i..])
    {
      var line := lines[i];
      assert lines[i..][1..] == lines[i + 1..];
      if LineHasProperties(line) {
        var lineProperties := LineProperties(line);
        if lineProperties.Fail? {
          return Fail(lineProperties.error);
        }
        if exists k | k in properties :: k in lineProperties.value && properties[k] != lineProperties.value[k] {
          return Fail(IllegalState);
        }
        properties := properties + lineProperties.value;
      }
      i := i + 1;
    }
    var sectionName := if SECTION_NAME_KEY in properties then Some(properties[SECTION_NAME_KEY]) else None;
    return Ok(SectionParsingResult(sectionName, lines, properties, FilterContent(lines)));
  }

  function SectionLinesOf(results: seq<SectionParsingResult>): (r: seq<seq<string>>)
    ensures |r| == |results| && forall k :: 0 <= k < |r| ==> r[k] == results[k].sectionLines
  {
    seq(|results|, k requires 0 <= k < |results| => results[k].sectionLines)
  }

  /** `results` are the parsed `sections`, one by one. */
  predicate ParsedAll(results: seq<SectionParsingResult>, sections: seq<seq<string>>)
  {
    |results| == |sections| &&
    forall k :: 0 <= k < |sections| ==> results[k].sectionLines == sections[k] && Ok(results[k]) == ParsedSection(sections[k])
  }

  /** `sections` is a way to cut `lines` the way splitSections does. */
  predicate SplitOf(lines: seq<string>, sections: seq<seq<string>>)
  {
    |sections| >= 1 && Concat(sections) == lines && WellSectioned(sections) &&
    (lines == [] ==> sections == [[]]) &&
    (lines != [] ==> forall k :: 0 <= k < |sections| ==> sections[k] != [])
  }

  /** There is only one way to cut the lines like splitSections, so its result is determined by them. */
  lemma SplitOfUnique(lines: seq<string>, a: seq<seq<string>>, b: seq<seq<string>>)
    requires SplitOf(lines, a) && SplitOf(lines, b)
    ensures a == b
  {
    if lines != [] {
      CutsUnique(a, b);
    }
  }

  /** Two cuts into non-empty sections of the shape splitSections produces, with the same lines, are equal. */
  lemma {:induction false} CutsUnique(a: seq<seq<string>>, b: seq<seq<string>>)
    requires Concat(a) == Concat(b) && WellSectioned(a) && WellSectioned(b)
    requires forall k :: 0 <= k < |a| ==> a[k] != []
    requires forall k :: 0 <= k < |b| ==> b[k] != []
    ensures a == b
    decreases |a|
  {
    if a == [] && b == [] {
    } else if a == [] {
      ConcatNonEmpty(b);
      assert false;
    } else if b == [] {
      ConcatNonEmpty(a);
      assert false;
    } else {
      assert Concat(a) == a[0] + Concat(a[1..]);
      assert Concat(b) == b[0] + Concat(b[1..]);
      FirstCut(a, b[0]);
      FirstCut(b, a[0]);
      assert a[0] == Concat(a)[..|a[0]|] == b[0];
      assert Concat(a[1..]) == Concat(b[1..]);
      CutsUnique(a[1..], b[1..]);
      assert a == [a[0]] + a[1..];
      assert b == [b[0]] + b[1..];
    }
  }

  /** Sections that start with a non-empty one hold some line. */
  lemma ConcatNonEmpty(a: seq<seq<string>>)
    ensures a != [] && a[0] != [] ==> Concat(a) != []
  {
    if a != [] {
      assert Concat(a) == a[0] + Concat(a[1..]);
    }
  }

  /**
   * A prefix of the lines that holds no section line after its first line is
   * no longer than the first section: the second section opens with one.
   */
  lemma FirstCut(a: seq<seq<string>>, first: seq<string>)
    requires a != [] && WellSectioned(a) && (forall k :: 0 <= k < |a| ==> a[k] != [])
    requires first <= Concat(a)
    requires forall j :: 1 <= j < |first| ==> !IsSectionLine(first[j])
    ensures |first| <= |a[0]|
  {
    if |a[0]| < |first| {
      SecondSectionOpens(a);
      assert false;
    }
  }

  /** The line right after the first section opens the second: a section line. */
  lemma SecondSectionOpens(a: seq<seq<string>>)
    requires a != [] && WellSectioned(a) && (forall k :: 0 <= k < |a| ==> a[k] != [])
    ensures |Concat(a)| > |a[0]| ==> IsSectionLine(Concat(a)[|a[0]|])
  {
    assert Concat(a) == a[0] + Concat(a[1..]);
    if a[1..] != [] {
      assert Concat(a[1..]) == a[1] + Concat(a[2..]);
      assert Concat(a)[|a[0]|] == a[1][0];
    }
  }

  /** Section `j` is the first one whose parse fails, and it fails with `e`. */
  predicate FirstFailureAt(sections: seq<seq<string>>, j: int, e: Error)
  {
    0 <= j < |sections| &&
    (forall k :: 0 <= k < j ==> ParsedSection(sections[k]).Ok?) &&
    ParsedSection(sections[j]) == Fail(e)
  }

  /**
   * parseFile over the lines of a file: split into sections, then parse each.
   * The file parses exactly when every section of the split parses; then every
   * section's result keeps its lines, in order, and otherwise the first
   * section that fails decides the error. `sections` is the split, which is
   * ghost because splitSections is a method.
   */
  method ParseFile(lines: seq<string>) returns (r: Result<seq<SectionParsingResult>>, ghost sections: seq<seq<string>>)
    ensures SplitOf(lines, sections)
    ensures r.Ok? <==> forall k :: 0 <= k < |sections| ==> ParsedSection(sections[k]).Ok?
    ensures r.Ok? ==> ParsedAll(r.value, sections) && SectionLinesOf(r.value) == sections
    ensures r.Fail? ==> exists j :: FirstFailureAt(sections, j, r.error)
    ensures r.Fail? ==> r.error == IllegalArgument || r.error == IllegalState
  {
    var split := SplitSections(lines);
    sections := split;
    r := ParseSections(split);
    if r.Ok? {
      ParsedAllLines(r.value, split);
    }
  }

  /**
   * The stream map in parseFile: parses the sections in order, stopping at
   * the first failure. It succeeds exactly when every section parses.
   */
  method ParseSections(sections: seq<seq<string>>) returns (r: Result<seq<SectionParsingResult>>)
    ensures r.Ok? <==> forall k :: 0 <= k < |sections| ==> ParsedSection(sections[k]).Ok?
    ensures r.Ok? ==> ParsedAll(r.value, sections)
    ensures r.Fail? ==> exists j :: FirstFailureAt(sections, j, r.error)
    ensures r.Fail? ==> r.error == IllegalArgument || r.error == IllegalState
  {
    var results: seq<SectionParsingResult> := [];
    var i := 0;
    while i < |sections|
      invariant 0 <= i <= |sections|
      invariant ParsedAll(results, sections[..i])
      invariant forall k :: 0 <= k < i ==> ParsedSection(sections[k]).Ok?
    {
      var section := ParseSection(sections[i]);
      if section.Fail? {
        ParsedSectionErrors(sections[i]);
        assert FirstFailureAt(sections, i, section.error);
        return Fail(section.error);
      }
      SectionName(sections[i]);
      ParsedAllSnoc(results, sections[..i], section.value, sections[i]);
      assert sections[..i] + [sections[i]] == sections[..i + 1];
      results := results + [section.value];
      i := i + 1;
    }
    assert sections[..i] == sections;
    return Ok(results);
  }

  lemma ParsedAllSnoc(results: seq<SectionParsingResult>, sections: seq<seq<string>>, r: SectionParsingResult, section: seq<string>)
    requires ParsedAll(results, sections) && r.sectionLines == section && Ok(r) == ParsedSection(section)
    ensures ParsedAll(results + [r], sections + [section])
  {
  }

  lemma ParsedAllLines(results: seq<SectionParsingResult>, sections: seq<seq<string>>)
    requires ParsedAll(results, sections)
    ensures SectionLinesOf(results) == sections
  {
  }

  // ---------------------------------------------------------------------
  // Lemmas

  lemma {:induction false} SectionPropertiesErrors(acc: map<string, string>, lines: seq<string>)
    ensures SectionProperties(acc, lines).Fail? ==>
      SectionProperties(acc, lines).error == IllegalArgument || SectionProperties(acc, lines).error == IllegalState
    decreases |lines|
  {
    if lines != [] {
      SectionPropertiesErrors(acc, lines[1..]);
      if LineHasProperties(lines[0]) && LineProperties(lines[0]).Ok? {
        SectionPropertiesErrors(acc + LineProperties(lines[0]).value, lines[1..]);
      }
      if LineHasProperties(lines[0]) {
        SplitPropertiesErrors(lines[0]);
      }
    }
  }

  lemma SplitPropertiesErrors(line: string)
    ensures LineProperties(line).Fail? ==> LineProperties(line).error == IllegalArgument
  {
    if LineHasProperties(line) {
      var prefix := if IsPropertiesLine(line) then PROPERTIES_PREFIX else SECTION_PREFIX;
      MapSplitter.PutEntriesErrors(MapSplitter.ParseEntries(TrimmedNonEmpty(SplitOn(line[|prefix|..], ";"))), map[]);
    }
  }

  /** A section fails only with IllegalArgumentException (a malformed line) or IllegalStateException (a conflict). */
  lemma ParsedSectionErrors(lines: seq<string>)
    ensures ParsedSection(lines).Fail? ==> ParsedSection(lines).error == IllegalArgument || ParsedSection(lines).error == IllegalState
  {
    SectionPropertiesErrors(map[], lines);
  }

  /** `a` is contained in `b`: every key of `a` is in `b` with the same value. */
  predicate SubMap(a: map<string, string>, b: map<string, string>)
  {
    forall k :: k in a ==> k in b && b[k] == a[k]
  }

  /** Every property-bearing line parsed, and its properties appear unchanged in `p`. */
  predicate LinesIn(lines: seq<string>, p: map<string, string>)
  {
    forall i :: 0 <= i < |lines| && LineHasProperties(lines[i]) ==>
      LineProperties(lines[i]).Ok? && SubMap(LineProperties(lines[i]).value, p)
  }

  lemma LinesInCons(lines: seq<string>, p: map<string, string>)
    requires lines != [] && LinesIn(lines[1..], p)
    requires LineHasProperties(lines[0]) ==> LineProperties(lines[0]).Ok? && SubMap(LineProperties(lines[0]).value, p)
    ensures LinesIn(lines, p)
  {
    forall i | 1 <= i < |lines| && LineHasProperties(lines[i])
      ensures LineProperties(lines[i]).Ok? && SubMap(LineProperties(lines[i]).value, p)
    {
      assert lines[i] == lines[1..][i - 1];
    }
  }

  /** Merging two maps that agree on their common keys contains both. */
  lemma MergeContainsBoth(a: map<string, string>, b: map<string, string>)
    requires !Differ(a, b)
    ensures SubMap(a, a + b) && SubMap(b, a + b)
  {
  }

  lemma SubMapTransitive(a: map<string, string>, b: map<string, string>, c: map<string, string>)
    requires SubMap(a, b) && SubMap(b, c)
    ensures SubMap(a, c)
  {
  }

  /**
   * Soundness of the merge: when a section parses, every property-bearing
   * line parsed, and its properties all appear unchanged in the section's map
   * (as does the starting map).
   */
  lemma {:induction false} SectionPropertiesSound(acc: map<string, string>, lines: seq<string>)
    requires SectionProperties(acc, lines).Ok?
    ensures SubMap(acc, SectionProperties(acc, lines).value)
    ensures LinesIn(lines, SectionProperties(acc, lines).value)
    decreases |lines|
  {
    if lines != [] {
      var p := SectionProperties(acc, lines).value;
      if LineHasProperties(lines[0]) {
        var lp := LineProperties(lines[0]).value;
        assert SectionProperties(acc, lines) == SectionProperties(acc + lp, lines[1..]);
        SectionPropertiesSound(acc + lp, lines[1..]);
        MergeContainsBoth(acc, lp);
        SubMapTransitive(acc, acc + lp, p);
        SubMapTransitive(lp, acc + lp, p);
      } else {
        assert SectionProperties(acc, lines) == SectionProperties(acc, lines[1..]);
        SectionPropertiesSound(acc, lines[1..]);
      }
      LinesInCons(lines, p);
    }
  }

  /** Completeness: every key of the section's map comes from the starting map or from some line. */
  lemma {:induction false} SectionPropertiesComplete(acc: map<string, string>, lines: seq<string>, key: string)
    requires SectionProperties(acc, lines).Ok? && key in SectionProperties(acc, lines).value
    ensures key in acc ||
      exists i :: 0 <= i < |lines| && LineHasProperties(lines[i]) && LineProperties(lines[i]).Ok? &&
        key in LineProperties(lines[i]).value
    decreases |lines|
  {
    if lines != [] {
      var next := if LineHasProperties(lines[0]) then acc + LineProperties(lines[0]).value else acc;
      SectionPropertiesComplete(next, lines[1..], key);
      if key !in next {
        var i :| 0 <= i < |lines[1..]| && LineHasProperties(lines[1..][i]) && LineProperties(lines[1..][i]).Ok? &&
          key in LineProperties(lines[1..][i]).value;
        assert lines[1..][i] == lines[i + 1];
      }
    }
  }

  /** Two property-bearing lines that give a key different values make the section fail. */
  lemma {:induction false} ConflictingLinesFail(acc: map<string, string>, lines: seq<string>, i: nat, j: nat)
    requires i < j < |lines| && LineHasProperties(lines[i]) && LineHasProperties(lines[j])
    requires LineProperties(lines[i]).Ok? && LineProperties(lines[j]).Ok?
    requires Differ(LineProperties(lines[i]).value, LineProperties(lines[j]).value)
    ensures SectionProperties(acc, lines).Fail?
  {
    if SectionProperties(acc, lines).Ok? {
      SectionPropertiesSound(acc, lines);
    }
  }

  lemma MergeNoDiffer(a: map<string, string>, b: map<string, string>, c: map<string, string>)
    requires !Differ(a, c) && !Differ(b, c)
    ensures !Differ(a + b, c)
  {
  }

  /** Property-bearing lines that all parse. */
  predicate AllLinesParse(lines: seq<string>)
  {
    forall i :: 0 <= i < |lines| && LineHasProperties(lines[i]) ==> LineProperties(lines[i]).Ok?
  }

  /** No two property-bearing lines (nor `acc` and a line) give a key different values. */
  predicate Consistent(acc: map<string, string>, lines: seq<string>)
    requires AllLinesParse(lines)
  {
    (forall i :: 0 <= i < |lines| && LineHasProperties(lines[i]) ==> !Differ(acc, LineProperties(lines[i]).value)) &&
    (forall i, j :: 0 <= i < j < |lines| && LineHasProperties(lines[i]) && LineHasProperties(lines[j]) ==>
      !Differ(LineProperties(lines[i]).value, LineProperties(lines[j]).value))
  }

  /** Conversely, lines that all parse and agree with each other always merge. */
  lemma {:induction false} ConsistentLinesMerge(acc: map<string, string>, lines: seq<string>)
    requires AllLinesParse(lines) && Consistent(acc, lines)
    ensures SectionProperties(acc, lines).Ok?
    decreases |lines|
  {
    if lines != [] {
      var rest := lines[1..];
      assert forall i :: 0 <= i < |rest| ==> rest[i] == lines[i + 1];
      assert AllLinesParse(rest);
      if LineHasProperties(lines[0]) {
        var lp := LineProperties(lines[0]).value;
        forall i | 0 <= i < |rest| && LineHasProperties(rest[i])
          ensures !Differ(acc + lp, LineProperties(rest[i]).value)
        {
          MergeNoDiffer(acc, lp, LineProperties(rest[i]).value);
        }
        ConsistentLinesMerge(acc + lp, rest);
      } else {
        ConsistentLinesMerge(acc, rest);
      }
    }
  }

  /** The section name is the `name` property. */
  lemma SectionName(lines: seq<string>)
    requires ParsedSection(lines).Ok?
    ensures ParsedSection(lines).value.sectionName == ParsedSection(lines).value.GetProperty(SECTION_NAME_KEY)
    ensures ParsedSection(lines).value.sectionLines == lines
  {
  }

  // filterContent

  /** Content filtering distributes over concatenation, so the order of lines is kept. */
  lemma {:induction false} FilterContentAppend(a: seq<string>, b: seq<string>)
    ensures FilterContent(a + b) == FilterContent(a) + FilterContent(b)
  {
    if a != [] {
      assert (a + b)[1..] == a[1..] + b;
      FilterContentAppend(a[1..], b);
    } else {
      assert a + b == b;
    }
  }

  /**
   * Exactly the kept lines survive: every output line is the transform of a
   * kept input line, and every kept input line's transform is in the output.
   */
  lemma {:induction false} FilterContentLines(lines: seq<string>)
    ensures forall x :: x in FilterContent(lines) ==> exists l :: l in lines && Kept(l) && x == TransformLine(l)
    ensures forall l :: l in lines && Kept(l) ==> TransformLine(l) in FilterContent(lines)
  {
    if lines != [] {
      FilterContentLines(lines[1..]);
      assert forall l :: l in lines[1..] ==> l in lines;
      assert forall l :: l in lines ==> l == lines[0] || l in lines[1..];
    }
  }

  /** unescapeLine strips exactly one leading backslash. */
  lemma UnescapeOne(s: string)
    ensures StartsWith(s, LINE_ESCAPE) ==> LINE_ESCAPE + UnescapeLine(s) == s
    ensures !StartsWith(s, LINE_ESCAPE) ==> UnescapeLine(s) == s
  {
    if StartsWith(s, LINE_ESCAPE) { assert s == [s[0]] + s[1..]; }
  }

  lemma {:induction false} SplitOnPiecesWithout(s: string, sep: string, c: char)
    requires |sep| > 0 && c !in s
    ensures forall k :: 0 <= k < |SplitOn(s, sep)| ==> c !in SplitOn(s, sep)[k]
    decreases |s|
  {
    match IndexOf(s, sep)
    case None =>
    case Some(i) =>
      var rest := s[i + |sep|..];
      assert c !in rest by {
        assert forall j :: 0 <= j < |rest| ==> rest[j] == s[i + |sep| + j];
      }
      assert c !in s[..i] by {
        assert forall j :: 0 <= j < i ==> s[..i][j] == s[j];
      }
      SplitOnPiecesWithout(rest, sep, c);
      assert SplitOn(s, sep) == [s[..i]] + SplitOn(rest, sep);
  }

  /**
   * For a line as read from a file (no line terminator), the newline-separated
   * pieces of the transformed line are exactly the pieces of the unescaped
   * line between its literal "\n" markers.
   */
  lemma TransformLineNewlines(line: string)
    requires '\n' !in line
    ensures SplitOn(TransformLine(line), "\n") == SplitOn(UnescapeLine(line), NEW_LINE_LITERAL)
  {
    var u := UnescapeLine(line);
    assert forall x :: x in u ==> x in line;
    SplitOnPiecesWithout(u, NEW_LINE_LITERAL, '\n');
    SplitJoinChar(SplitOn(u, NEW_LINE_LITERAL), '\n');
  }

  // getContent / getContentAsSingleLine

  /** Content without embedded newlines splits back into its lines from getContent. */
  lemma ContentRoundTrip(r: SectionParsingResult)
    requires forall k :: 0 <= k < |r.contentLines| ==> '\n' !in r.contentLines[k]
    ensures r.contentLines != [] ==> SplitOn(r.GetContent(), "\n") == r.contentLines
    ensures r.contentLines == [] ==> r.GetContent() == ""
  {
    if r.contentLines != [] { SplitJoinChar(r.contentLines, '\n'); }
  }

  /** Content without spaces splits back into its lines from getContentAsSingleLine. */
  lemma SingleLineRoundTrip(r: SectionParsingResult)
    requires forall k :: 0 <= k < |r.contentLines| ==> ' ' !in r.contentLines[k]
    ensures r.contentLines != [] ==> SplitOn(r.GetContentAsSingleLine(), " ") == r.contentLines
    ensures r.contentLines == [] ==> r.GetContentAsSingleLine() == ""
  {
    if r.contentLines != [] { SplitJoinChar(r.contentLines, ' '); }
  }
}
