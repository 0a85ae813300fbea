/**
 * TemptoRunnerCommandLineParser: the runner's command line. A builder
 * collects the options (no two with one long name) and their default
 * values, each changeable from the command line or not; the parser offers
 * only the changeable options to commons-cli, and turns the parsed command
 * line into the runner options: the command-line value, else the default,
 * else "true" for a bare flag. commons-cli's own parsing is a parameter.
 */
module RunnerCommandLineParsers {
  import opened Wrappers
  import opened Strings
  import opened RunnerOptions

  const DEFAULT_REPORT_DIR: string := "./test-reports"
  /** TestConfigurationFactory.DEFAULT_TEST_CONFIGURATION_LOCATION. */
  const DEFAULT_TEST_CONFIGURATION_LOCATION: string := "tempto-configuration.yaml"
  /** ConventionTestsUtils.DEFAULT_CONVENTION_TESTS_DIR. */
  const DEFAULT_CONVENTION_TESTS_DIR: string := "sql-tests"

  datatype DefaultValue = DefaultValue(value: string, changeable: bool)

  /** The parser the builder builds: the options in the order added, and the defaults by long name. */
  datatype CommandLineParser = CommandLineParser(appName: string, options: seq<OptionSpec>, defaults: map<string, DefaultValue>)

  /**
   * What commons-cli's parse gives: each option present on the command
   * line, by long name, with its argument when it has one, and the
   * arguments left over.
   */
  datatype CommandLine = CommandLine(present: map<string, Option<string>>, argList: seq<string>)

  /** Whether some option has this long name. */
  predicate HasLongOpt(options: seq<OptionSpec>, longOpt: string)
  {
    exists i :: 0 <= i < |options| && options[i].longOpt == longOpt
  }

  predicate DistinctLongOpts(options: seq<OptionSpec>)
  {
    forall i, j :: 0 <= i < j < |options| ==> options[i].longOpt != options[j].longOpt
  }

  /** isChangable: an option without a default, or with a changeable one. */
  predicate IsChangeable(defaults: map<string, DefaultValue>, longOpt: string)
  {
    longOpt !in defaults || defaults[longOpt].changeable
  }

  /** The options offered to commons-cli: the changeable ones, in order. */
  function Changeable(defaults: map<string, DefaultValue>, options: seq<OptionSpec>): (r: seq<OptionSpec>)
    ensures forall o :: o in r <==> o in options && IsChangeable(defaults, o.longOpt)
  {
    if options == [] then []
    else
      var n := |options|;
      var prefix := Changeable(defaults, options[..n - 1]);
      assert forall o :: o in options <==> o in options[..n - 1] || o == options[n - 1];
      if IsChangeable(defaults, options[n - 1].longOpt) then prefix + [options[n - 1]] else prefix
  }

  /** buildOptions. */
  method BuildOptions(parser: CommandLineParser) returns (exposed: seq<OptionSpec>)
    ensures exposed == Changeable(parser.defaults, parser.options)
  {
    exposed := [];
    for i := 0 to |parser.options|
      invariant exposed == Changeable(parser.defaults, parser.options[..i])
    {
      assert parser.options[..i + 1][..i] == parser.options[..i];
      if IsChangeable(parser.defaults, parser.options[i].longOpt) {
        exposed := exposed + [parser.options[i]];
      }
    }
    assert parser.options[..|parser.options|] == parser.options;
  }

  /**
   * getOptionValue: with a default, the command-line argument or else the
   * default; without one, the argument, "true" for an option given without
   * argument, and nothing for an option not given.
   */
  function OptionValue(parser: CommandLineParser, commandLine: CommandLine, longOpt: string): (r: Option<string>)
    ensures longOpt in parser.defaults ==> r.Some?
    ensures longOpt !in parser.defaults ==> (r.Some? <==> longOpt in commandLine.present)
  {
    var argument := if longOpt in commandLine.present then commandLine.present[longOpt] else None;
    if longOpt in parser.defaults then Some(argument.GetOr(parser.defaults[longOpt].value))
    else if argument.Some? then argument
    else if longOpt in commandLine.present then Some("true")
    else None
  }

  /** The values of the options, each under its long name, for those that have one. */
  function ValuesOf(parser: CommandLineParser, commandLine: CommandLine, options: seq<OptionSpec>): (r: map<string, string>)
    ensures forall n :: n in r <==> HasLongOpt(options, n) && OptionValue(parser, commandLine, n).Some?
    ensures forall n :: n in r ==> r[n] == OptionValue(parser, commandLine, n).value
  {
    if options == [] then map[]
    else
      var n := |options|;
      var prefix := ValuesOf(parser, commandLine, options[..n - 1]);
      var longOpt := options[n - 1].longOpt;
      assert forall m :: HasLongOpt(options, m) <==> HasLongOpt(options[..n - 1], m) || m == longOpt by {
        forall m | HasLongOpt(options, m)
          ensures HasLongOpt(options[..n - 1], m) || m == longOpt
        {
          var i :| 0 <= i < n && options[i].longOpt == m;
          if i < n - 1 {
            assert options[..n - 1][i] == options[i];
          }
        }
        forall m | HasLongOpt(options[..n - 1], m)
          ensures HasLongOpt(options, m)
        {
          var i :| 0 <= i < n - 1 && options[..n - 1][i].longOpt == m;
          assert options[i] == options[..n - 1][i];
        }
      }
      match OptionValue(parser, commandLine, longOpt)
      case Some(v) => prefix[longOpt := v]
      case None => prefix
  }

  /**
   * commandLineToOptions: arguments left over are a ParsingException;
   * otherwise every option with a value contributes it.
   */
  function ToOptions(parser: CommandLineParser, commandLine: CommandLine): (r: Result<TemptoRunnerOptions>)
    ensures r.Fail? <==> commandLine.argList != []
    ensures r.Fail? ==> r.error == Parsing
  {
    if commandLine.argList != [] then Fail(Parsing)
    else Ok(TemptoRunnerOptions(ValuesOf(parser, commandLine, parser.options)))
  }

  /**
   * commandLineToOptions, filling the map option by option. The map
   * builder refuses a repeated key, which the builder's distinct long
   * names rule out.
   */
  method CommandLineToOptions(parser: CommandLineParser, commandLine: CommandLine) returns (r: Result<TemptoRunnerOptions>)
    requires DistinctLongOpts(parser.options)
    ensures r == ToOptions(parser, commandLine)
  {
    if commandLine.argList != [] {
      return Fail(Parsing);
    }
    var values: map<string, string> := map[];
    for i := 0 to |parser.options|
      invariant values == ValuesOf(parser, commandLine, parser.options[..i])
    {
      assert parser.options[..i + 1][..i] == parser.options[..i];
      var value := OptionValue(parser, commandLine, parser.options[i].longOpt);
      if value.Some? {
        values := values[parser.options[i].longOpt := value.value];
      }
    }
    assert parser.options[..|parser.options|] == parser.options;
    return Ok(TemptoRunnerOptions(values));
  }

  /**
   * parseCommandLine: commons-cli parses the arguments against the
   * changeable options (a ParseException becomes a ParsingException), and
   * the command line becomes the runner options.
   */
  function Parsed(parser: CommandLineParser, parse: seq<OptionSpec> -> Result<CommandLine>): (r: Result<TemptoRunnerOptions>)
    ensures parse(Changeable(parser.defaults, parser.options)).Fail? ==> r == Fail(Parsing)
  {
    match parse(Changeable(parser.defaults, parser.options))
    case Fail(_) => Fail(Parsing)
    case Ok(commandLine) => ToOptions(parser, commandLine)
  }

  method ParseCommandLine(parser: CommandLineParser, parse: seq<OptionSpec> -> Result<CommandLine>)
    returns (r: Result<TemptoRunnerOptions>)
    requires DistinctLongOpts(parser.options)
    ensures r == Parsed(parser, parse)
  {
    var options := BuildOptions(parser);
    var commandLine := parse(options);
    if commandLine.Fail? {
      return Fail(Parsing);
    }
    r := CommandLineToOptions(parser, commandLine.value);
  }

  // ---------------------------------------------------------------------
  // The builder

  /** The options after setDefaultValue's registration: unchanged if present, else with the option added. */
  function WithOption(options: seq<OptionSpec>, option: OptionSpec): seq<OptionSpec>
  {
    if HasLongOpt(options, option.longOpt) then options else options + [option]
  }

  class Builder {
    var appName: string
    var options: seq<OptionSpec>
    var defaults: map<string, DefaultValue>

    /** Long names are distinct, and every default belongs to an option. */
    ghost predicate Valid()
      reads this
    {
      DistinctLongOpts(options) && forall n :: n in defaults ==> HasLongOpt(options, n)
    }

    /**
     * Builder(appName): the eight runner options, then the changeable
     * defaults for the report directory, the configuration file and the
     * convention test directory, which add the last two options.
     */
    constructor(appName: string)
      ensures Valid() && this.appName == appName
      ensures options == [EXCLUDED_GROUPS, GROUPS, PACKAGE, REPORT_DIR, TESTS, HELP, DUMP_CONVENTION_RESULTS,
                          THREAD_COUNT, CONFIG_FILES, CONVENTION_TESTS_DIR]
      ensures defaults == map[REPORT_DIR.longOpt := DefaultValue(DEFAULT_REPORT_DIR, true),
                              CONFIG_FILES.longOpt := DefaultValue(DEFAULT_TEST_CONFIGURATION_LOCATION, true),
                              CONVENTION_TESTS_DIR.longOpt := DefaultValue(DEFAULT_CONVENTION_TESTS_DIR, true)]
    {
      this.appName := appName;
      options := [];
      defaults := map[];
      new;
      AddRunnerOptions();
      PresetOptions();
      SetReportDir(DEFAULT_REPORT_DIR, true);
      SetConfigFile(DEFAULT_TEST_CONFIGURATION_LOCATION, true);
      SetConventionTestDirectory(DEFAULT_CONVENTION_TESTS_DIR, true);
    }

    /** Which of the preset defaults find their option among the eight. */
    static lemma PresetOptions()
      ensures var eight := [EXCLUDED_GROUPS, GROUPS, PACKAGE, REPORT_DIR, TESTS, HELP, DUMP_CONVENTION_RESULTS, THREAD_COUNT];
        WithOption(eight, REPORT_DIR) == eight &&
        WithOption(eight, CONFIG_FILES) == eight + [CONFIG_FILES] &&
        WithOption(eight + [CONFIG_FILES], CONVENTION_TESTS_DIR) == eight + [CONFIG_FILES, CONVENTION_TESTS_DIR]
    {
      var eight := [EXCLUDED_GROUPS, GROUPS, PACKAGE, REPORT_DIR, TESTS, HELP, DUMP_CONVENTION_RESULTS, THREAD_COUNT];
      assert eight[3].longOpt == REPORT_DIR.longOpt;
    }

    /** The eight options the builder starts from, added one by one. */
    method AddRunnerOptions()
      requires Valid() && options == [] && defaults == map[]
      modifies this
      ensures Valid() && defaults == map[] && appName == old(appName)
      ensures options == [EXCLUDED_GROUPS, GROUPS, PACKAGE, REPORT_DIR, TESTS, HELP, DUMP_CONVENTION_RESULTS, THREAD_COUNT]
    {
      var all := [EXCLUDED_GROUPS, GROUPS, PACKAGE, REPORT_DIR, TESTS, HELP, DUMP_CONVENTION_RESULTS, THREAD_COUNT];
      for k := 0 to |all|
        invariant Valid() && defaults == map[] && appName == old(appName)
        invariant options == all[..k]
      {
        var added := AddOption(all[k]);
        assert all[..k + 1] == all[..k] + [all[k]];
      }
      assert all[..|all|] == all;
    }

    /** addOption: a second option with the same long name is an IllegalArgument and nothing is added. */
    method AddOption(option: OptionSpec) returns (r: Result<()>)
      requires Valid()
      modifies this
      ensures Valid()
      ensures r.Fail? <==> old(HasLongOpt(options, option.longOpt))
      ensures r.Fail? ==> r.error == IllegalArgument && options == old(options)
      ensures r.Ok? ==> options == old(options) + [option]
      ensures defaults == old(defaults) && appName == old(appName)
    {
      if HasLongOpt(options, option.longOpt) {
        return Fail(IllegalArgument);
      }
      options := options + [option];
      assert forall n :: HasLongOpt(old(options), n) ==> HasLongOpt(options, n) by {
        forall n | HasLongOpt(old(options), n)
          ensures HasLongOpt(options, n)
        {
          var i :| 0 <= i < |old(options)| && old(options)[i].longOpt == n;
          assert options[i] == old(options)[i];
        }
      }
      return Ok(());
    }

    /**
     * setDefaultValue: the option is added when missing, never twice, and
     * its default (with whether it may be changed) is recorded, replacing
     * any earlier one.
     */
    method SetDefaultValue(option: OptionSpec, value: string, changeable: bool)
      requires Valid()
      modifies this
      ensures Valid()
      ensures options == WithOption(old(options), option)
      ensures defaults == old(defaults)[option.longOpt := DefaultValue(value, changeable)]
      ensures appName == old(appName)
    {
      if !HasLongOpt(options, option.longOpt) {
        var added := AddOption(option);
      }
      assert HasLongOpt(options, option.longOpt) by {
        assert options[|options| - 1].longOpt == option.longOpt || HasLongOpt(old(options), option.longOpt);
      }
      defaults := defaults[option.longOpt := DefaultValue(value, changeable)];
    }

    /** setDefaultValue(option, value): a changeable default. */
    method SetDefault(option: OptionSpec, value: string)
      requires Valid()
      modifies this
      ensures Valid()
      ensures options == WithOption(old(options), option)
      ensures defaults == old(defaults)[option.longOpt := DefaultValue(value, true)]
      ensures appName == old(appName)
    {
      SetDefaultValue(option, value, true);
    }

    method SetTestsPackage(testsPackage: string, changeable: bool)
      requires Valid()
      modifies this
      ensures Valid()
      ensures options == WithOption(old(options), PACKAGE)
      ensures defaults == old(defaults)[PACKAGE.longOpt := DefaultValue(testsPackage, changeable)]
      ensures appName == old(appName)
    {
      SetDefaultValue(PACKAGE, testsPackage, changeable);
    }

    /** setConfigFiles: the files joined with ','. */
    method SetConfigFiles(configFiles: seq<string>, changeable: bool)
      requires Valid()
      modifies this
      ensures Valid()
      ensures options == WithOption(old(options), CONFIG_FILES)
      ensures defaults == old(defaults)[CONFIG_FILES.longOpt := DefaultValue(Join(configFiles, ","), changeable)]
      ensures appName == old(appName)
    {
      SetDefaultValue(CONFIG_FILES, Join(configFiles, ","), changeable);
    }

    method SetConfigFile(configFile: string, changeable: bool)
      requires Valid()
      modifies this
      ensures Valid()
      ensures options == WithOption(old(options), CONFIG_FILES)
      ensures defaults == old(defaults)[CONFIG_FILES.longOpt := DefaultValue(configFile, changeable)]
      ensures appName == old(appName)
    {
      assert Join([configFile], ",") == configFile;
      SetConfigFiles([configFile], changeable);
    }

    method SetReportDir(reportDir: string, changeable: bool)
      requires Valid()
      modifies this
      ensures Valid()
      ensures options == WithOption(old(options), REPORT_DIR)
      ensures defaults == old(defaults)[REPORT_DIR.longOpt := DefaultValue(reportDir, changeable)]
      ensures appName == old(appName)
    {
      SetDefaultValue(REPORT_DIR, reportDir, changeable);
    }

    method SetConventionTestDirectory(conventionTestsDir: string, changeable: bool)
      requires Valid()
      modifies this
      ensures Valid()
      ensures options == WithOption(old(options), CONVENTION_TESTS_DIR)
      ensures defaults == old(defaults)[CONVENTION_TESTS_DIR.longOpt := DefaultValue(conventionTestsDir, changeable)]
      ensures appName == old(appName)
    {
      SetDefaultValue(CONVENTION_TESTS_DIR, conventionTestsDir, changeable);
    }

    method SetExcludedGroups(excludedGroups: string, changeable: bool)
      requires Valid()
      modifies this
      ensures Valid()
      ensures options == WithOption(old(options), EXCLUDED_GROUPS)
      ensures defaults == old(defaults)[EXCLUDED_GROUPS.longOpt := DefaultValue(excludedGroups, changeable)]
      ensures appName == old(appName)
    {
      SetDefaultValue(EXCLUDED_GROUPS, excludedGroups, changeable);
    }

    method SetGroups(groups: string, changeable: bool)
      requires Valid()
      modifies this
      ensures Valid()
      ensures options == WithOption(old(options), GROUPS)
      ensures defaults == old(defaults)[GROUPS.longOpt := DefaultValue(groups, changeable)]
      ensures appName == old(appName)
    {
      SetDefaultValue(GROUPS, groups, changeable);
    }

    /** build: a parser over the options and defaults collected. */
    function Build(): (parser: CommandLineParser)
      reads this
      requires Valid()
      ensures DistinctLongOpts(parser.options)
      ensures parser.options == options && parser.defaults == defaults && parser.appName == appName
    {
      CommandLineParser(appName, options, defaults)
    }
  }

  // ---------------------------------------------------------------------
  // Lemmas

  /**
   * A value given on the command line wins over the default; with the
   * option absent the default is used.
   */
  lemma CommandLineOverridesDefault(parser: CommandLineParser, commandLine: CommandLine, longOpt: string)
    requires longOpt in parser.defaults
    ensures longOpt in commandLine.present && commandLine.present[longOpt].Some? ==>
      OptionValue(parser, commandLine, longOpt) == commandLine.present[longOpt]
    ensures longOpt !in commandLine.present ==>
      OptionValue(parser, commandLine, longOpt) == Some(parser.defaults[longOpt].value)
  {
  }

  /**
   * Without a default, an option given without argument reads "true", and
   * one not given is left out of the options altogether.
   */
  lemma FlagsAndAbsentOptions(parser: CommandLineParser, commandLine: CommandLine, option: OptionSpec)
    requires option in parser.options && option.longOpt !in parser.defaults && commandLine.argList == []
    ensures var values := ToOptions(parser, commandLine).value.values;
      (option.longOpt in commandLine.present && commandLine.present[option.longOpt].None? ==>
        option.longOpt in values && values[option.longOpt] == "true") &&
      (option.longOpt !in commandLine.present ==> option.longOpt !in values)
  {
    var i :| 0 <= i < |parser.options| && parser.options[i] == option;
    assert HasLongOpt(parser.options, option.longOpt);
  }

  /**
   * A default that may not be changed is not offered on the command line,
   * so a command line parsed against the offered options always yields the
   * default.
   */
  lemma FixedDefaultStays(parser: CommandLineParser, commandLine: CommandLine, option: OptionSpec)
    requires option in parser.options && option.longOpt in parser.defaults && !parser.defaults[option.longOpt].changeable
    requires forall n :: n in commandLine.present ==> HasLongOpt(Changeable(parser.defaults, parser.options), n)
    requires commandLine.argList == []
    ensures option !in Changeable(parser.defaults, parser.options)
    ensures var values := ToOptions(parser, commandLine).value.values;
      option.longOpt in values && values[option.longOpt] == parser.defaults[option.longOpt].value
  {
    var exposed := Changeable(parser.defaults, parser.options);
    if option.longOpt in commandLine.present {
      assert false;
    }
    var i :| 0 <= i < |parser.options| && parser.options[i] == option;
    assert HasLongOpt(parser.options, option.longOpt);
  }

  /** The default values, by long name. */
  function DefaultValues(defaults: map<string, DefaultValue>): map<string, string>
  {
    map n | n in defaults :: defaults[n].value
  }

  /**
   * commandLineToOptions on a command line that carries no option and no
   * leftover argument: the options are exactly the defaults, no flag reads
   * "true" and no option without a default is set. (parseCommandLine only
   * gets such a command line when no exposed option is required; see
   * FreshParserNeedsPackage.)
   */
  lemma EmptyCommandLine(parser: CommandLineParser)
    requires forall n :: n in parser.defaults ==> HasLongOpt(parser.options, n)
    ensures ToOptions(parser, CommandLine(map[], [])) == Ok(TemptoRunnerOptions(DefaultValues(parser.defaults)))
  {
    var values := ToOptions(parser, CommandLine(map[], [])).value.values;
    assert forall n :: n in values <==> n in DefaultValues(parser.defaults);
    assert values == DefaultValues(parser.defaults);
  }

  /**
   * commandLineToOptions of the freshly built parser, on a command line that
   * carries no option, yields exactly the three preset defaults.
   */
  lemma FreshParserDefaults(b: Builder)
    requires b.Valid()
    requires b.defaults == map[REPORT_DIR.longOpt := DefaultValue(DEFAULT_REPORT_DIR, true),
                               CONFIG_FILES.longOpt := DefaultValue(DEFAULT_TEST_CONFIGURATION_LOCATION, true),
                               CONVENTION_TESTS_DIR.longOpt := DefaultValue(DEFAULT_CONVENTION_TESTS_DIR, true)]
    ensures ToOptions(b.Build(), CommandLine(map[], [])) ==
      Ok(TemptoRunnerOptions(map[REPORT_DIR.longOpt := DEFAULT_REPORT_DIR,
                                 CONFIG_FILES.longOpt := DEFAULT_TEST_CONFIGURATION_LOCATION,
                                 CONVENTION_TESTS_DIR.longOpt := DEFAULT_CONVENTION_TESTS_DIR]))
  {
    EmptyCommandLine(b.Build());
    var expected := map[REPORT_DIR.longOpt := DEFAULT_REPORT_DIR,
                        CONFIG_FILES.longOpt := DEFAULT_TEST_CONFIGURATION_LOCATION,
                        CONVENTION_TESTS_DIR.longOpt := DEFAULT_CONVENTION_TESTS_DIR];
    assert DefaultValues(b.defaults) == expected;
  }

  /**
   * commons-cli's check of required options: when the parse against
   * `options` succeeds, every required option among them is on the command
   * line (DefaultParser throws MissingOptionException otherwise).
   */
  predicate HonoursRequired(parse: seq<OptionSpec> -> Result<CommandLine>, options: seq<OptionSpec>)
  {
    parse(options).Ok? ==> forall o :: o in options && o.required ==> o.longOpt in parse(options).value.present
  }

  /**
   * A required option without a default is offered to commons-cli, so
   * arguments that do not give it make parseCommandLine fail with a
   * ParsingException.
   */
  lemma MissingRequiredFails(parser: CommandLineParser, parse: seq<OptionSpec> -> Result<CommandLine>, option: OptionSpec)
    requires HonoursRequired(parse, Changeable(parser.defaults, parser.options))
    requires option in parser.options && option.required && option.longOpt !in parser.defaults
    requires parse(Changeable(parser.defaults, parser.options)).Ok? ==>
      option.longOpt !in parse(Changeable(parser.defaults, parser.options)).value.present
    ensures Parsed(parser, parse) == Fail(Parsing)
  {
    assert option in Changeable(parser.defaults, parser.options);
  }

  /**
   * The freshly built parser (the options and defaults the Builder
   * constructor sets up) has no default for the required package option,
   * so parseCommandLine fails on any arguments without -p, the empty
   * argument list included.
   */
  lemma FreshParserNeedsPackage(parser: CommandLineParser, parse: seq<OptionSpec> -> Result<CommandLine>)
    requires parser.options == [EXCLUDED_GROUPS, GROUPS, PACKAGE, REPORT_DIR, TESTS, HELP, DUMP_CONVENTION_RESULTS,
                                THREAD_COUNT, CONFIG_FILES, CONVENTION_TESTS_DIR]
    requires parser.defaults == map[REPORT_DIR.longOpt := DefaultValue(DEFAULT_REPORT_DIR, true),
                                    CONFIG_FILES.longOpt := DefaultValue(DEFAULT_TEST_CONFIGURATION_LOCATION, true),
                                    CONVENTION_TESTS_DIR.longOpt := DefaultValue(DEFAULT_CONVENTION_TESTS_DIR, true)]
    requires HonoursRequired(parse, Changeable(parser.defaults, parser.options))
    requires parse(Changeable(parser.defaults, parser.options)).Ok? ==>
      PACKAGE.longOpt !in parse(Changeable(parser.defaults, parser.options)).value.present
    ensures Parsed(parser, parse) == Fail(Parsing)
  {
    PackageHasNoDefault(parser.defaults);
    assert parser.options[2] == PACKAGE;
    MissingRequiredFails(parser, parse, PACKAGE);
  }

  lemma PackageHasNoDefault(defaults: map<string, DefaultValue>)
    requires defaults == map[REPORT_DIR.longOpt := DefaultValue(DEFAULT_REPORT_DIR, true),
                             CONFIG_FILES.longOpt := DefaultValue(DEFAULT_TEST_CONFIGURATION_LOCATION, true),
                             CONVENTION_TESTS_DIR.longOpt := DefaultValue(DEFAULT_CONVENTION_TESTS_DIR, true)]
    ensures PACKAGE.longOpt !in defaults
  {
  }

  /** Arguments left over after the options are refused. */
  lemma LeftoverArgumentsRefused(parser: CommandLineParser, present: map<string, Option<string>>, extra: string)
    ensures ToOptions(parser, CommandLine(present, [extra])) == Fail(Parsing)
  {
  }
}
