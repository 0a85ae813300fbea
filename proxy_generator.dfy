/**
 * ConventionBasedTestProxyGenerator: the class and method names under
 * which a convention-based test is exposed. The test name is split on '.';
 * the next-to-last segment names the class, the last one the method, each
 * made a Java symbol first. The bytecode generation itself is not modelled.
 */
module TestProxyGenerators {
  import opened Wrappers
  import opened Strings

  predicate IsAsciiLetter(c: char)
  {
    ('A' <= c <= 'Z') || ('a' <= c <= 'z')
  }

  /** The characters the pattern [A-Za-z0-9_] accepts. */
  predicate IsSymbolChar(c: char)
  {
    IsAsciiLetter(c) || ('0' <= c <= '9') || c == '_'
  }

  /** replaceAll("[^A-Za-z0-9_]", "_"): every other character becomes one '_'. */
  function Sanitize(s: string): string
  {
    seq(|s|, i requires 0 <= i < |s| => if IsSymbolChar(s[i]) then s[i] else '_')
  }

  /**
   * toJavaSymbol: the empty string stays empty; otherwise the sanitized
   * string, with a '_' in front when it does not start with a letter. A
   * non-empty result is a Java identifier: only [A-Za-z0-9_], starting
   * with a letter or '_'.
   */
  function ToJavaSymbol(s: string): string
  {
    if s == "" then s
    else
      var symbol := Sanitize(s);
      if IsAsciiLetter(symbol[0]) then symbol else "_" + symbol
  }

  /** generatedClassName: the package, '.', and the symbol of the next-to-last segment. */
  function GeneratedClassName(testPackage: string, testName: string): (r: Result<string>)
    ensures r.Fail? <==> |SplitOn(testName, ".")| < 2
    ensures r.Fail? ==> r.error == IndexOutOfBounds
  {
    var parts := SplitOn(testName, ".");
    if |parts| < 2 then Fail(IndexOutOfBounds)
    else Ok(testPackage + "." + ToJavaSymbol(parts[|parts| - 2]))
  }

  /** generatedMethodName: the symbol of the last segment. */
  function GeneratedMethodName(testName: string): string
  {
    var parts := SplitOn(testName, ".");
    ToJavaSymbol(parts[|parts| - 1])
  }

  // ---------------------------------------------------------------------
  // Lemmas

  /**
   * A non-empty result of toJavaSymbol is a Java identifier: only
   * [A-Za-z0-9_], starting with a letter or '_'; it is the sanitized input,
   * with one '_' in front exactly when the input does not start with a letter.
   */
  lemma ToJavaSymbolShape(s: string)
    ensures var r := ToJavaSymbol(s);
      (s == "" ==> r == "") &&
      (forall i :: 0 <= i < |r| ==> IsSymbolChar(r[i])) &&
      (s != "" ==> IsAsciiLetter(r[0]) || r[0] == '_') &&
      var pad := |r| - |s|;
      (pad == 0 || pad == 1) && r[pad..] == Sanitize(s) &&
      (pad == 1 <==> s != "" && !IsAsciiLetter(s[0]))
  {
    var r := ToJavaSymbol(s);
    if s != "" && !IsAsciiLetter(s[0]) {
      assert r[1..] == Sanitize(s);
    }
  }

  /** The strings toJavaSymbol leaves alone: the empty one, and those of symbol characters with a letter first. */
  lemma ToJavaSymbolFixed(s: string)
    ensures ToJavaSymbol(s) == s <==> s == "" || IsIdentifier(s)
  {
    if s != "" {
      if ToJavaSymbol(s) == s {
        FixedIsIdentifier(s);
      }
      if IsIdentifier(s) {
        IdentifierIsFixed(s);
      }
    }
  }

  /** A letter, then symbol characters. */
  predicate IsIdentifier(s: string)
  {
    s != "" && IsAsciiLetter(s[0]) && forall i :: 0 <= i < |s| ==> IsSymbolChar(s[i])
  }

  lemma FixedIsIdentifier(s: string)
    requires s != "" && ToJavaSymbol(s) == s
    ensures IsIdentifier(s)
  {
    var symbol := Sanitize(s);
    ToJavaSymbolShape(s);
    assert IsAsciiLetter(symbol[0]) by {
      assert |ToJavaSymbol(s)| == |s|;
    }
    assert ToJavaSymbol(s) == symbol;
    forall i | 0 <= i < |s|
      ensures IsSymbolChar(s[i])
    {
      assert s[i] == symbol[i];
    }
  }

  lemma IdentifierIsFixed(s: string)
    requires IsIdentifier(s)
    ensures ToJavaSymbol(s) == s
  {
    assert Sanitize(s) == s;
  }

  /** toJavaSymbol is not idempotent: "1a" gives "_1a", and that gives "__1a". */
  lemma ToJavaSymbolNotIdempotent()
    ensures ToJavaSymbol("1a") == "_1a"
    ensures ToJavaSymbol("_1a") == "__1a"
  {
    assert Sanitize("1a") == "1a";
    assert Sanitize("_1a") == "_1a";
  }

  /**
   * For a test name made of segments without '.', the class is named after
   * the next-to-last segment and the method after the last one.
   */
  lemma GeneratedNames(testPackage: string, segments: seq<string>)
    requires |segments| >= 2
    requires forall k :: 0 <= k < |segments| ==> '.' !in segments[k]
    ensures GeneratedClassName(testPackage, Join(segments, ".")) ==
      Ok(testPackage + "." + ToJavaSymbol(segments[|segments| - 2]))
    ensures GeneratedMethodName(Join(segments, ".")) == ToJavaSymbol(segments[|segments| - 1])
  {
    SplitJoinChar(segments, '.');
    NamesOfSegments(testPackage, Join(segments, "."), segments);
  }

  lemma NamesOfSegments(testPackage: string, testName: string, segments: seq<string>)
    requires |segments| >= 2 && SplitOn(testName, ".") == segments
    ensures GeneratedClassName(testPackage, testName) == Ok(testPackage + "." + ToJavaSymbol(segments[|segments| - 2]))
    ensures GeneratedMethodName(testName) == ToJavaSymbol(segments[|segments| - 1])
  {
  }

  /** A test name without '.' has no class to go in. */
  lemma UndottedNameHasNoClass(testPackage: string, testName: string)
    requires '.' !in testName
    ensures GeneratedClassName(testPackage, testName) == Fail(IndexOutOfBounds)
    ensures GeneratedMethodName(testName) == ToJavaSymbol(testName)
  {
    ContainsChar(testName, '.');
    SplitOnAbsent(testName, ".");
  }
}
