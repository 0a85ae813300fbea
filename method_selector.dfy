/**
 * TestNameGroupNameMethodSelector: which test methods run, from three
 * optional filters read from system properties: the test names to run,
 * the groups to run and the groups to exclude. The system properties and
 * the metadata TestNG gives for a method are parameters.
 */
module MethodSelectors {
  import opened Wrappers
  import opened Strings

  /** What the metadata reader gives for a method: its test name and groups. */
  datatype TestMetadata = TestMetadata(testName: string, testGroups: set<string>)

  /** The three filters; an absent property is no filter. */
  datatype MethodSelector = MethodSelector(
    testNamesToRun: Option<set<string>>,
    testGroupsToRun: Option<set<string>>,
    testGroupsToExclude: Option<set<string>>)

  /**
   * getListSystemProperty: a set property is split on ',', each element
   * trimmed and the empty ones dropped; an unset one is no filter.
   */
  function ListSystemProperty(property: Option<string>): (r: Option<set<string>>)
    ensures r.Some? <==> property.Some?
    ensures r.Some? ==> forall e :: e in r.value ==> e != "" && GuavaTrimmed(e)
  {
    if property.None? then None
    else
      var elements := SplitTrimOmit(property.value, ",");
      TrimmedNonEmptyClean(SplitOn(property.value, ","));
      Some(set k | 0 <= k < |elements| :: elements[k])
  }

  /** The no-argument constructor: the three filters from the three properties. */
  function FromProperties(names: Option<string>, groups: Option<string>, excludeGroups: Option<string>)
    : (r: MethodSelector)
    ensures r.testNamesToRun.Some? <==> names.Some?
    ensures r.testGroupsToRun.Some? <==> groups.Some?
    ensures r.testGroupsToExclude.Some? <==> excludeGroups.Some?
  {
    MethodSelector(ListSystemProperty(names), ListSystemProperty(groups), ListSystemProperty(excludeGroups))
  }

  /** includeBasedOnTestName: some filter string occurs anywhere in the test name. */
  predicate IncludeBasedOnTestName(selector: MethodSelector, metadata: TestMetadata)
  {
    selector.testNamesToRun.None? ||
    exists name :: name in selector.testNamesToRun.value && Contains(metadata.testName, name)
  }

  /** includeBasedOnGroups: the test shares a group with the groups to run. */
  predicate IncludeBasedOnGroups(selector: MethodSelector, metadata: TestMetadata)
  {
    selector.testGroupsToRun.None? || metadata.testGroups * selector.testGroupsToRun.value != {}
  }

  /** excludeBasedOnGroups: the test shares a group with the groups to exclude. */
  predicate ExcludeBasedOnGroups(selector: MethodSelector, metadata: TestMetadata)
  {
    selector.testGroupsToExclude.Some? && metadata.testGroups * selector.testGroupsToExclude.value != {}
  }

  /** includeMethod: whether the method is a test method plays no part. */
  predicate IncludeMethod(selector: MethodSelector, metadata: TestMetadata, isTestMethod: bool)
  {
    IncludeBasedOnTestName(selector, metadata) &&
    IncludeBasedOnGroups(selector, metadata) &&
    !ExcludeBasedOnGroups(selector, metadata)
  }

  // ---------------------------------------------------------------------
  // Lemmas

  /**
   * The selection, filter by filter: included exactly when some name
   * occurs in the test name (or there is no name filter), some group is to
   * be run (or there is no group filter), and no group is excluded.
   */
  lemma IncludeMethodSpec(selector: MethodSelector, metadata: TestMetadata, isTestMethod: bool)
    ensures IncludeMethod(selector, metadata, isTestMethod) <==>
      (selector.testNamesToRun.None? ||
        exists name :: name in selector.testNamesToRun.value && Contains(metadata.testName, name)) &&
      (selector.testGroupsToRun.None? ||
        exists g :: g in metadata.testGroups && g in selector.testGroupsToRun.value) &&
      (selector.testGroupsToExclude.None? ||
        forall g :: g in metadata.testGroups ==> g !in selector.testGroupsToExclude.value)
  {
    if selector.testGroupsToRun.Some? {
      var both := metadata.testGroups * selector.testGroupsToRun.value;
      if both != {} {
        var g :| g in both;
      } else {
        forall g | g in metadata.testGroups
          ensures g !in selector.testGroupsToRun.value
        {
          assert g !in both;
        }
      }
    }
    if selector.testGroupsToExclude.Some? {
      var both := metadata.testGroups * selector.testGroupsToExclude.value;
      if both != {} {
        var g :| g in both;
      } else {
        forall g | g in metadata.testGroups
          ensures g !in selector.testGroupsToExclude.value
        {
          assert g !in both;
        }
      }
    }
  }

  /** With no property set, every method runs. */
  lemma NoFiltersIncludeAll(metadata: TestMetadata, isTestMethod: bool)
    ensures IncludeMethod(FromProperties(None, None, None), metadata, isTestMethod)
  {
  }

  /** A groups property that lists no group admits no method at all. */
  lemma EmptyGroupsAdmitNothing(selector: MethodSelector, metadata: TestMetadata, isTestMethod: bool)
    requires selector.testGroupsToRun == Some({})
    ensures !IncludeMethod(selector, metadata, isTestMethod)
  {
  }

  /** A property of commas and blanks sets a filter with no element. */
  lemma BlankPropertyIsEmptyFilter()
    ensures ListSystemProperty(Some(" , ")) == Some({})
  {
    assert SplitOn(" , ", ",") == [" ", " "] by {
      assert Join([" ", " "], ",") == " , ";
      SplitJoinChar([" ", " "], ',');
    }
    assert GuavaTrim(" ") == "" by {
      assert IsWhitespace(" "[0]) && " "[1..] == "";
      assert TrimLeft(" ", GuavaSpace) == TrimLeft("", GuavaSpace) == "";
    }
    assert [" ", " "][1..] == [" "] && [" "][1..] == [];
    assert TrimmedNonEmpty([" ", " "]) == [];
    assert SplitTrimOmit(" , ", ",") == [];
    var r := ListSystemProperty(Some(" , ")).value;
    assert forall e :: e !in r;
    assert r == {};
  }

  /** An excluded group wins over every other filter. */
  lemma ExclusionWins(selector: MethodSelector, metadata: TestMetadata, isTestMethod: bool, g: string)
    requires selector.testGroupsToExclude.Some? && g in selector.testGroupsToExclude.value
    requires g in metadata.testGroups
    ensures !IncludeMethod(selector, metadata, isTestMethod)
  {
    assert g in metadata.testGroups * selector.testGroupsToExclude.value;
  }

  /**
   * Names are matched as substrings, not only as suffixes: a suffix of the
   * test name matches, and so does "c" inside "abc.c2".
   */
  lemma NameMatchesSubstring(selector: MethodSelector, metadata: TestMetadata, name: string)
    requires selector.testNamesToRun.Some? && name in selector.testNamesToRun.value
    ensures EndsWith(metadata.testName, name) ==> IncludeBasedOnTestName(selector, metadata)
    ensures name == "c" && metadata.testName == "abc.c2" ==> IncludeBasedOnTestName(selector, metadata)
  {
    if EndsWith(metadata.testName, name) {
      ContainsAt(metadata.testName, name, |metadata.testName| - |name|);
    }
    if name == "c" && metadata.testName == "abc.c2" {
      ContainsAt(metadata.testName, name, 2);
    }
  }

  /**
   * More names or more groups to run admit more methods; more groups to
   * exclude admit fewer.
   */
  lemma FiltersMonotone(names: set<string>, names': set<string>, groups: set<string>, groups': set<string>,
                        excluded: set<string>, excluded': set<string>, metadata: TestMetadata, isTestMethod: bool)
    requires names <= names' && groups <= groups' && excluded' <= excluded
    ensures IncludeMethod(MethodSelector(Some(names), Some(groups), Some(excluded)), metadata, isTestMethod) ==>
      IncludeMethod(MethodSelector(Some(names'), Some(groups'), Some(excluded')), metadata, isTestMethod)
  {
    var s := MethodSelector(Some(names), Some(groups), Some(excluded));
    var s' := MethodSelector(Some(names'), Some(groups'), Some(excluded'));
    if IncludeMethod(s, metadata, isTestMethod) {
      var g :| g in metadata.testGroups * groups;
      assert g in metadata.testGroups * groups';
      assert metadata.testGroups * excluded' <= metadata.testGroups * excluded;
    }
  }
}
