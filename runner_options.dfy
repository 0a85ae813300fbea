/**
 * TemptoRunnerOptions: the options of the test runner, held as a map from
 * each option's long name to its text value, and read through getters
 * that interpret the text (a comma list, a flag, a thread count).
 */
module RunnerOptions {
  import opened Wrappers
  import opened Strings
  import Values
  import MethodSelectors

  /** A command-line option, as much of commons-cli's Option as the runner uses. */
  datatype OptionSpec = OptionSpec(shortOpt: Option<string>, longOpt: string, hasArg: bool, required: bool)

  const PACKAGE: OptionSpec := OptionSpec(Some("p"), "package", true, true)
  const CONFIG_FILES: OptionSpec := OptionSpec(Some("f"), "config", true, false)
  const REPORT_DIR: OptionSpec := OptionSpec(Some("r"), "report-dir", true, false)
  const CONVENTION_TESTS_DIR: OptionSpec := OptionSpec(Some("c"), "convention-test-dir", true, false)
  const GROUPS: OptionSpec := OptionSpec(Some("g"), "groups", true, false)
  const EXCLUDED_GROUPS: OptionSpec := OptionSpec(Some("x"), "excluded-groups", true, false)
  const TESTS: OptionSpec := OptionSpec(Some("t"), "tests", true, false)
  const HELP: OptionSpec := OptionSpec(Some("h"), "help", false, false)
  const DUMP_CONVENTION_RESULTS: OptionSpec := OptionSpec(None, "dump-convention-results", true, false)
  const THREAD_COUNT: OptionSpec := OptionSpec(None, "thread-count", true, false)

  /** The values, by long option name; an immutable copy of what the parser produced. */
  datatype TemptoRunnerOptions = TemptoRunnerOptions(values: map<string, string>)

  /** getValue: the stored value, or nothing. */
  function GetValue(options: TemptoRunnerOptions, option: string): (r: Option<string>)
    ensures r.Some? <==> option in options.values
    ensures r.Some? ==> r.value == options.values[option]
  {
    if option in options.values then Some(options.values[option]) else None
  }

  /**
   * getValues: an absent option is the empty set; a present one is split
   * on ',', each piece trimmed, the empty pieces dropped, and the rest
   * collected as a set.
   */
  function GetValues(options: TemptoRunnerOptions, option: string): (r: set<string>)
    ensures option !in options.values ==> r == {}
    ensures forall e :: e in r ==> e != "" && GuavaTrimmed(e)
  {
    match GetValue(options, option)
    case None => {}
    case Some(v) =>
      var pieces := SplitTrimOmit(v, ",");
      TrimmedNonEmptyClean(SplitOn(v, ","));
      set k | 0 <= k < |pieces| :: pieces[k]
  }

  /** isSet: the stored value is exactly "true"; case matters. */
  function IsSet(options: TemptoRunnerOptions, option: OptionSpec): (b: bool)
    ensures b <==> option.longOpt in options.values && options.values[option.longOpt] == "true"
  {
    match GetValue(options, option.longOpt)
    case None => false
    case Some(v) => v == "true"
  }

  /**
   * getThreadCount: Integer.parseInt of the value, "1" when unset; a value
   * that is not an int is a NumberFormatException (IllegalArgument).
   */
  function GetThreadCount(options: TemptoRunnerOptions): (r: Result<int>)
    ensures THREAD_COUNT.longOpt !in options.values ==> r == Ok(1)
    ensures r.Ok? ==> Values.INTEGER_MIN <= r.value <= Values.INTEGER_MAX
    ensures r.Fail? ==> r.error == IllegalArgument
  {
    var text := GetValue(options, THREAD_COUNT.longOpt).GetOr("1");
    assert "1"[0] != '-' && "1"[0] != '+';
    assert Values.DigitsValue("1") == Values.DigitsValue("") * 10 + 1;
    match Values.ParseInteger(text)
    case None => Fail(IllegalArgument)
    case Some(n) => Ok(n)
  }

  /** getReportDir, getTestsPackage, getConfigFiles, getConventionTestsDirectory: Optional.get of the value. */
  function GetMandatory(options: TemptoRunnerOptions, option: OptionSpec): (r: Result<string>)
    ensures r.Ok? <==> option.longOpt in options.values
    ensures r.Fail? ==> r.error == NoSuchElement
    ensures r.Ok? ==> GetValue(options, option.longOpt) == Some(r.value)
  {
    match GetValue(options, option.longOpt)
    case None => Fail(NoSuchElement)
    case Some(v) => Ok(v)
  }

  function GetReportDir(options: TemptoRunnerOptions): Result<string>
  {
    GetMandatory(options, REPORT_DIR)
  }

  function GetTestsPackage(options: TemptoRunnerOptions): Result<string>
  {
    GetMandatory(options, PACKAGE)
  }

  function GetConfigFiles(options: TemptoRunnerOptions): Result<string>
  {
    GetMandatory(options, CONFIG_FILES)
  }

  function GetConventionTestsDirectory(options: TemptoRunnerOptions): Result<string>
  {
    GetMandatory(options, CONVENTION_TESTS_DIR)
  }

  function GetTestGroups(options: TemptoRunnerOptions): set<string>
  {
    GetValues(options, GROUPS.longOpt)
  }

  function GetExcludeGroups(options: TemptoRunnerOptions): set<string>
  {
    GetValues(options, EXCLUDED_GROUPS.longOpt)
  }

  function GetTests(options: TemptoRunnerOptions): set<string>
  {
    GetValues(options, TESTS.longOpt)
  }

  function IsHelpRequested(options: TemptoRunnerOptions): bool
  {
    IsSet(options, HELP)
  }

  function GetConventionResultsDumpPath(options: TemptoRunnerOptions): Option<string>
  {
    GetValue(options, DUMP_CONVENTION_RESULTS.longOpt)
  }

  // ---------------------------------------------------------------------
  // Lemmas

  /**
   * getValues splits a list the way the method selector splits its system
   * properties: the same set, and the empty set where the selector has no
   * filter.
   */
  lemma GetValuesAsSelectorList(options: TemptoRunnerOptions, option: string)
    ensures GetValues(options, option) == MethodSelectors.ListSystemProperty(GetValue(options, option)).GetOr({})
  {
  }

  /**
   * Round trip: options joined with ',' read back as the set of those
   * options, when each is non-empty, trimmed and free of ','.
   */
  lemma GetValuesOfJoined(options: TemptoRunnerOptions, option: string, names: seq<string>)
    requires |names| >= 1
    requires forall k :: 0 <= k < |names| ==> names[k] != "" && GuavaTrimmed(names[k]) && ',' !in names[k]
    requires option in options.values && options.values[option] == Join(names, ",")
    ensures GetValues(options, option) == set k | 0 <= k < |names| :: names[k]
  {
    SplitJoinChar(names, ',');
    TrimmedNonEmptyFixed(names);
  }

  /** A list of only commas and blanks is the empty set, as is an unset option. */
  lemma GetValuesBlank(options: TemptoRunnerOptions, option: string)
    requires option in options.values && options.values[option] == " , "
    ensures GetValues(options, option) == {}
  {
    MethodSelectors.BlankPropertyIsEmptyFilter();
  }

  /** The flag is case-sensitive: "TRUE" does not set it. */
  lemma IsSetCaseSensitive(option: OptionSpec)
    ensures !IsSet(TemptoRunnerOptions(map[option.longOpt := "TRUE"]), option)
    ensures IsSet(TemptoRunnerOptions(map[option.longOpt := "true"]), option)
  {
    assert "TRUE" != "true" by {
      assert "TRUE"[0] != "true"[0];
    }
  }

  /** A stored thread count of "8" is read as 8; "eight" is a NumberFormatException. */
  lemma ThreadCountExamples()
    ensures GetThreadCount(TemptoRunnerOptions(map["thread-count" := "8"])) == Ok(8)
    ensures GetThreadCount(TemptoRunnerOptions(map["thread-count" := "eight"])) == Fail(IllegalArgument)
  {
    assert "8"[0] != '-' && "8"[0] != '+';
    assert Values.DigitsValue("8") == Values.DigitsValue("") * 10 + 8;
    assert !Values.IsDigit("eight"[0]);
  }

  /** The option constants have distinct long names. */
  lemma LongNamesDistinct()
    ensures var all := [PACKAGE, CONFIG_FILES, REPORT_DIR, CONVENTION_TESTS_DIR, GROUPS, EXCLUDED_GROUPS,
                        TESTS, HELP, DUMP_CONVENTION_RESULTS, THREAD_COUNT];
      forall i, j :: 0 <= i < j < |all| ==> all[i].longOpt != all[j].longOpt
  {
  }
}
