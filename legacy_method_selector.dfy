/**
 * The older TestNameGroupNameMethodSelector: the same three filters, but a
 * name matches only the whole test name or a dot-separated suffix of it,
 * and methods that are not tests are always included.
 */
module LegacyMethodSelectors {
  import opened Wrappers
  import opened Strings
  import opened MethodSelectors

  /** The older name match: the whole name, or the part after a '.'. */
  predicate NameMatches(testName: string, name: string)
  {
    testName == name || EndsWith(testName, "." + name)
  }

  predicate LegacyIncludeBasedOnTestName(selector: MethodSelector, metadata: TestMetadata)
  {
    selector.testNamesToRun.None? ||
    exists name :: name in selector.testNamesToRun.value && NameMatches(metadata.testName, name)
  }

  /** includeMethod: non-test methods first, then the three filters. */
  predicate LegacyIncludeMethod(selector: MethodSelector, metadata: TestMetadata, isTestMethod: bool)
  {
    !isTestMethod ||
    (LegacyIncludeBasedOnTestName(selector, metadata) &&
     IncludeBasedOnGroups(selector, metadata) &&
     !ExcludeBasedOnGroups(selector, metadata))
  }

  // ---------------------------------------------------------------------
  // Lemmas

  /** Configuration methods are never filtered out, whatever the filters. */
  lemma NonTestMethodsIncluded(selector: MethodSelector, metadata: TestMetadata)
    ensures LegacyIncludeMethod(selector, metadata, false)
  {
  }

  /**
   * For test methods the older selector is stricter than the newer one: a
   * name it matches also occurs in the test name, so every test it selects
   * the newer one selects too.
   */
  lemma LegacyStricter(selector: MethodSelector, metadata: TestMetadata)
    ensures LegacyIncludeMethod(selector, metadata, true) ==> IncludeMethod(selector, metadata, true)
  {
    if selector.testNamesToRun.Some? && LegacyIncludeMethod(selector, metadata, true) {
      var name :| name in selector.testNamesToRun.value && NameMatches(metadata.testName, name);
      var t := metadata.testName;
      if t == name {
        ContainsAt(t, name, 0);
      } else {
        var k := |t| - |name|;
        assert t[k..] == name by {
          assert t[|t| - |"." + name|..] == "." + name;
        }
        ContainsAt(t, name, k);
      }
    }
  }

  /** "c" does not select the test "abc" in the older selector, but does in the newer. */
  lemma SuffixNotSubstring()
    ensures var s := MethodSelector(Some({"c"}), None, None);
      var md := TestMetadata("abc", {});
      !LegacyIncludeMethod(s, md, true) && IncludeMethod(s, md, true)
  {
    var s := MethodSelector(Some({"c"}), None, None);
    var md := TestMetadata("abc", {});
    assert !NameMatches("abc", "c") by {
      assert "abc"[1..] != ".c";
    }
    ContainsAt("abc", "c", 2);
  }

  /** "c" selects "a.b.c" in both. */
  lemma DottedSuffixMatches()
    ensures var s := MethodSelector(Some({"c"}), None, None);
      var md := TestMetadata("a.b.c", {});
      LegacyIncludeMethod(s, md, true) && IncludeMethod(s, md, true)
  {
    var s := MethodSelector(Some({"c"}), None, None);
    var md := TestMetadata("a.b.c", {});
    assert "a.b.c"[3..] == ".c";
    assert NameMatches("a.b.c", "c");
    LegacyStricter(s, md);
  }
}
