/**
 * JdbcConnectionsConfiguration: the JDBC connections declared under the
 * "databases" section of a configuration. A connection section may name
 * another one by "alias"; aliases are followed until a section without
 * one, and an alias seen twice is an IllegalStateException.
 */
module JdbcConnectionsConfigurations {
  import opened Wrappers
  import opened Strings
  import opened MapConfigurations

  const DATABASES_SECTION: string := "databases"
  const JDBC_DRIVER_CLASS: string := "jdbc_driver_class"
  const JDBC_URL_KEY: string := "jdbc_url"
  const JDBC_USER_KEY: string := "jdbc_user"
  const JDBC_PASSWORD_KEY: string := "jdbc_password"
  const JDBC_POOLING_KEY: string := "jdbc_pooling"
  const JDBC_JAR: string := "jdbc_jar"
  const ALIAS_KEY: string := "alias"
  const PREPARE_STATEMENT_KEY: string := "prepare_statement"
  const KERBEROS_PRINCIPAL_KEY: string := "kerberos_principal"
  const KERBEROS_KEYTAB_KEY: string := "kerberos_keytab"

  /** getString: the text of the value at the key, if any. */
  function GetString(conf: map<string, Entry>, key: string): (r: Option<string>)
    ensures r.Some? <==> Get(conf, key).Some?
    ensures r.Some? ==> Get(conf, key) == Some(Leaf(r.value))
  {
    var v := Get(conf, key);
    if v.Some? then Some(v.value.value) else None
  }

  /** getStringMandatory: a missing value is an IllegalStateException. */
  function GetStringMandatory(conf: map<string, Entry>, key: string): (r: Result<string>)
    ensures r.Ok? <==> GetString(conf, key).Some?
    ensures r.Ok? ==> r.value == GetString(conf, key).value
    ensures r.Fail? ==> r.error == IllegalState
  {
    var v := GetString(conf, key);
    if v.Some? then Ok(v.value) else Fail(IllegalState)
  }

  /** getBoolean: a text value is read as Boolean.parseBoolean does, true only for "true" in any case. */
  function GetBoolean(conf: map<string, Entry>, key: string): (r: Option<bool>)
    ensures r.Some? <==> GetString(conf, key).Some?
    ensures r == Some(true) <==> GetString(conf, key).Some? && EqualsIgnoreCase(GetString(conf, key).value, "true")
  {
    var v := GetString(conf, key);
    if v.Some? then Some(EqualsIgnoreCase(v.value, "true")) else None
  }

  /** The section of one connection name: databases.<name>. */
  function ConnectionSection(m: map<string, Entry>, name: string): map<string, Entry>
  {
    Subconfiguration(m, JoinKey(Some(DATABASES_SECTION), name))
  }

  /** The alias a connection section names, if any. */
  function AliasOf(m: map<string, Entry>, name: string): Option<string>
  {
    GetString(ConnectionSection(m, name), ALIAS_KEY)
  }

  /** Every text held anywhere in a configuration entry. */
  ghost function LeafValues(e: Entry): set<string>
  {
    match e
    case Leaf(v) => {v}
    case Nested(m) => set k, v | k in m && v in LeafValues(m[k]) :: v
  }

  /**
   * The alias chain from `alias`, with the names already visited: a name
   * seen before is an IllegalStateException, a section without alias is
   * the result. Every alias is a text of the configuration, which is why
   * the chain ends: `universe` holds them all.
   */
  function ResolveFrom(m: map<string, Entry>, alias: string, visited: set<string>, ghost universe: set<string>)
    : (r: Result<map<string, Entry>>)
    requires alias in universe && LeafValues(Nested(m)) <= universe
    ensures r.Fail? ==> r.error == IllegalState
    decreases |universe - visited|
  {
    if alias in visited then Fail(IllegalState)
    else
      var next := AliasOf(m, alias);
      if next.None? then Ok(ConnectionSection(m, alias))
      else
        AliasIsValue(m, alias);
        assert universe - (visited + {alias}) == (universe - visited) - {alias};
        ResolveFrom(m, next.value, visited + {alias}, universe)
  }

  /** One link of the alias chain: a section without alias ends it, otherwise the chain goes on from the alias. */
  lemma ResolveStep(m: map<string, Entry>, alias: string, visited: set<string>, universe: set<string>)
    requires alias in universe && LeafValues(Nested(m)) <= universe && alias !in visited
    ensures |universe - (visited + {alias})| < |universe - visited|
    ensures AliasOf(m, alias).None? ==> ResolveFrom(m, alias, visited, universe) == Ok(ConnectionSection(m, alias))
    ensures AliasOf(m, alias).Some? ==> (AliasOf(m, alias).value in universe &&
      ResolveFrom(m, alias, visited, universe) == ResolveFrom(m, AliasOf(m, alias).value, visited + {alias}, universe))
  {
    assert universe - (visited + {alias}) == (universe - visited) - {alias};
    if AliasOf(m, alias).Some? {
      AliasIsValue(m, alias);
    }
  }

  /** The universe every resolution of a name starts from. */
  ghost function Universe(m: map<string, Entry>, name: string): set<string>
  {
    LeafValues(Nested(m)) + {name}
  }

  /** getDatabaseConnectionSubConfiguration as a function. */
  function Resolve(m: map<string, Entry>, name: string): Result<map<string, Entry>>
  {
    ResolveFrom(m, name, {}, Universe(m, name))
  }

  /**
   * getDatabaseConnectionSubConfiguration: the loop over the alias chain
   * with the set of visited names.
   */
  method DatabaseConnectionSubConfiguration(m: map<string, Entry>, name: string)
    returns (r: Result<map<string, Entry>>)
    ensures r == Resolve(m, name)
  {
    ghost var universe := Universe(m, name);
    var visited: set<string> := {};
    var currentAlias := name;
    while true
      invariant currentAlias in universe
      invariant ResolveFrom(m, currentAlias, visited, universe) == Resolve(m, name)
      decreases |universe - visited|
    {
      if currentAlias in visited {
        return Fail(IllegalState);
      }
      ResolveStep(m, currentAlias, visited, universe);
      visited := visited + {currentAlias};
      var section := ConnectionSection(m, currentAlias);
      var nextAlias := GetString(section, ALIAS_KEY);
      if nextAlias.Some? {
        currentAlias := nextAlias.value;
      } else {
        return Ok(section);
      }
    }
  }

  /** KeyUtils.getKeyPrefix(key, 1): the first segment of a dotted key. */
  function KeyPrefix(key: string): string
  {
    SplitKey(key)[0]
  }

  /** listKeyPrefixes(1): the first segment of every key. */
  function KeyPrefixes(keys: set<string>): set<string>
  {
    set k | k in keys :: KeyPrefix(k)
  }

  /** listKeyPrefixes(1) of the databases section: the connection names mentioned there. */
  ghost function DatabaseNames(m: map<string, Entry>): set<string>
  {
    KeyPrefixes(ListedKeys(Subconfiguration(m, DATABASES_SECTION), None))
  }

  /**
   * getDefinedJdcbConnectionNames: the names whose resolved section has a
   * driver class; a name whose alias chain cannot be resolved makes the
   * whole call fail.
   */
  ghost function DefinedNames(m: map<string, Entry>): Result<set<string>>
  {
    Filtered(m, DatabaseNames(m))
  }

  /** The filter over some names: any unresolvable one fails it. */
  ghost function Filtered(m: map<string, Entry>, names: set<string>): Result<set<string>>
  {
    if exists n :: n in names && Resolve(m, n).Fail? then Fail(IllegalState)
    else Ok(WithDriver(m, names))
  }

  /** The names among `names` that resolve to a section with a driver class. */
  ghost function WithDriver(m: map<string, Entry>, names: set<string>): set<string>
  {
    set n | n in names && HasDriver(m, n)
  }

  /** The filter of getDefinedJdcbConnectionNames. */
  predicate HasDriver(m: map<string, Entry>, name: string)
  {
    Resolve(m, name).Ok? && GetString(Resolve(m, name).value, JDBC_DRIVER_CLASS).Some?
  }

  /** getDefinedJdcbConnectionNames: the prefixes of the keys under "databases", filtered. */
  method GetDefinedConnectionNames(m: map<string, Entry>) returns (r: Result<set<string>>)
    ensures r == DefinedNames(m)
  {
    var keys := ListKeys(Subconfiguration(m, DATABASES_SECTION));
    r := Filter(m, KeyPrefixes(keys));
  }

  /** The stream filter over the names, as a loop. */
  method Filter(m: map<string, Entry>, names: set<string>) returns (r: Result<set<string>>)
    ensures r == Filtered(m, names)
  {
    var todo := names;
    ghost var done: set<string> := {};
    var defined: set<string> := {};
    while todo != {}
      invariant done + todo == names && done !! todo
      invariant forall n :: n in done ==> Resolve(m, n).Ok?
      invariant defined == WithDriver(m, done)
      decreases |todo|
    {
      var n :| n in todo;
      var ok;
      ok, defined := FilterOne(m, n, done, defined);
      if !ok {
        assert n in names && Resolve(m, n).Fail?;
        return Fail(IllegalState);
      }
      MoveOne(done, todo, n);
      done := done + {n};
      todo := todo - {n};
    }
    assert done == names;
    assert !exists n :: n in names && Resolve(m, n).Fail?;
    r := Ok(defined);
  }

  /** One step of the filter: resolve the name, and keep it when its section has a driver class. */
  method FilterOne(m: map<string, Entry>, n: string, ghost done: set<string>, defined: set<string>)
    returns (ok: bool, defined': set<string>)
    requires defined == WithDriver(m, done)
    ensures ok <==> Resolve(m, n).Ok?
    ensures ok ==> defined' == WithDriver(m, done + {n})
  {
    var section := DatabaseConnectionSubConfiguration(m, n);
    if section.Fail? {
      return false, defined;
    }
    WithDriverAdd(m, done, n);
    ok := true;
    if GetString(section.value, JDBC_DRIVER_CLASS).Some? {
      defined' := defined + {n};
    } else {
      defined' := defined;
    }
  }

  /** JdbcConnectivityParamsState: what getConnectionConfiguration builds. */
  datatype JdbcConnectivityParams = JdbcConnectivityParams(
    name: string,
    driverClass: string,
    url: string,
    user: string,
    password: string,
    pooling: bool,
    jar: Option<string>,
    prepareStatement: Option<string>,
    kerberosPrincipal: Option<string>,
    kerberosKeytab: Option<string>)

  /**
   * getConnectionConfiguration: the resolved section's driver class, URL,
   * user and password are mandatory; pooling defaults to false; the rest
   * are optional. The name is the one asked for, not the end of the alias chain.
   */
  function ConnectionConfiguration(m: map<string, Entry>, name: string): (r: Result<JdbcConnectivityParams>)
    ensures r.Fail? ==> r.error == IllegalState
    ensures r.Ok? ==> Resolve(m, name).Ok? && r.value.name == name
  {
    var resolved := Resolve(m, name);
    if resolved.Fail? then Fail(resolved.error)
    else
      var c := resolved.value;
      var driverClass := GetStringMandatory(c, JDBC_DRIVER_CLASS);
      var url := GetStringMandatory(c, JDBC_URL_KEY);
      var user := GetStringMandatory(c, JDBC_USER_KEY);
      var password := GetStringMandatory(c, JDBC_PASSWORD_KEY);
      if driverClass.Fail? || url.Fail? || user.Fail? || password.Fail? then Fail(IllegalState)
      else
        var pooling := GetBoolean(c, JDBC_POOLING_KEY);
        Ok(JdbcConnectivityParams(
          name, driverClass.value, url.value, user.value, password.value,
          if pooling.Some? then pooling.value else false,
          GetString(c, JDBC_JAR), GetString(c, PREPARE_STATEMENT_KEY),
          GetString(c, KERBEROS_PRINCIPAL_KEY), GetString(c, KERBEROS_KEYTAB_KEY)))
  }

  /** getConnectionConfiguration: resolution by the loop, then the builder. */
  method GetConnectionConfiguration(m: map<string, Entry>, name: string) returns (r: Result<JdbcConnectivityParams>)
    ensures r == ConnectionConfiguration(m, name)
  {
    var resolved := DatabaseConnectionSubConfiguration(m, name);
    if resolved.Fail? {
      return Fail(resolved.error);
    }
    var c := resolved.value;
    var driverClass := GetStringMandatory(c, JDBC_DRIVER_CLASS);
    var url := GetStringMandatory(c, JDBC_URL_KEY);
    var user := GetStringMandatory(c, JDBC_USER_KEY);
    var password := GetStringMandatory(c, JDBC_PASSWORD_KEY);
    if driverClass.Fail? || url.Fail? || user.Fail? || password.Fail? {
      return Fail(IllegalState);
    }
    var pooling := GetBoolean(c, JDBC_POOLING_KEY);
    r := Ok(JdbcConnectivityParams(
      name, driverClass.value, url.value, user.value, password.value,
      if pooling.Some? then pooling.value else false,
      GetString(c, JDBC_JAR), GetString(c, PREPARE_STATEMENT_KEY),
      GetString(c, KERBEROS_PRINCIPAL_KEY), GetString(c, KERBEROS_KEYTAB_KEY)));
  }

  // ---------------------------------------------------------------------
  // Lemmas

  /** The entry at a path holds only texts of the map it was found in. */
  lemma {:induction false} LookupValues(m: map<string, Entry>, path: seq<string>)
    requires Lookup(m, path).Some?
    ensures LeafValues(Lookup(m, path).value) <= LeafValues(Nested(m))
    decreases |path|
  {
    var k := path[0];
    if |path| == 1 {
      forall v | v in LeafValues(m[k])
        ensures v in LeafValues(Nested(m))
      {
      }
    } else {
      var sm := m[k].entries;
      assert m[k] == Nested(sm);
      LookupValues(sm, path[1..]);
      forall v | v in LeafValues(Nested(sm))
        ensures v in LeafValues(Nested(m))
      {
      }
    }
  }

  /** The same for the entry getObject finds. */
  lemma ObjectAtValues(m: map<string, Entry>, key: string)
    requires ObjectAt(m, key).Some?
    ensures LeafValues(ObjectAt(m, key).value) <= LeafValues(Nested(m))
  {
    if key in m {
      forall v | v in LeafValues(m[key])
        ensures v in LeafValues(Nested(m))
      {
      }
    } else {
      LookupValues(m, SplitKey(key));
    }
  }

  /** The alias a section names is a text of the configuration. */
  lemma AliasIsValue(m: map<string, Entry>, name: string)
    requires AliasOf(m, name).Some?
    ensures AliasOf(m, name).value in LeafValues(Nested(m))
  {
    var key := JoinKey(Some(DATABASES_SECTION), name);
    var section := ConnectionSection(m, name);
    var alias := AliasOf(m, name).value;
    ObjectAtValues(section, ALIAS_KEY);
    assert alias in LeafValues(Nested(section));
    ObjectAtValues(m, key);
    assert Nested(section) == ObjectAt(m, key).value;
  }

  /**
   * The names already visited change nothing but the failures: a chain
   * that resolves from a set of visited names resolves to the same section
   * from any smaller set, whatever the universe.
   */
  lemma {:induction false} ResolveFromFewer(
    m: map<string, Entry>, alias: string,
    visited: set<string>, universe: set<string>,
    fewer: set<string>, universe': set<string>)
    requires alias in universe && LeafValues(Nested(m)) <= universe
    requires alias in universe' && LeafValues(Nested(m)) <= universe'
    requires fewer <= visited
    requires ResolveFrom(m, alias, visited, universe).Ok?
    ensures ResolveFrom(m, alias, fewer, universe') == ResolveFrom(m, alias, visited, universe)
    decreases |universe - visited|
  {
    var next := AliasOf(m, alias);
    if next.Some? {
      AliasIsValue(m, alias);
      assert universe - (visited + {alias}) == (universe - visited) - {alias};
      ResolveFromFewer(m, next.value, visited + {alias}, universe, fewer + {alias}, universe');
    }
  }

  /** Moving a name from the pending names to the handled ones. */
  lemma MoveOne(done: set<string>, todo: set<string>, n: string)
    requires n in todo && done !! todo
    ensures (done + {n}) + (todo - {n}) == done + todo
    ensures (done + {n}) !! (todo - {n})
    ensures |todo - {n}| < |todo|
  {
  }

  /** One more name for the filter. */
  lemma WithDriverAdd(m: map<string, Entry>, done: set<string>, n: string)
    ensures WithDriver(m, done + {n}) == WithDriver(m, done) + (if HasDriver(m, n) then {n} else {})
  {
  }

  /** A resolved section never names an alias itself. */
  lemma {:induction false} ResolvedHasNoAlias(m: map<string, Entry>, alias: string, visited: set<string>, universe: set<string>)
    requires alias in universe && LeafValues(Nested(m)) <= universe
    requires ResolveFrom(m, alias, visited, universe).Ok?
    ensures GetString(ResolveFrom(m, alias, visited, universe).value, ALIAS_KEY).None?
    decreases |universe - visited|
  {
    var next := AliasOf(m, alias);
    if next.Some? {
      AliasIsValue(m, alias);
      assert universe - (visited + {alias}) == (universe - visited) - {alias};
      ResolvedHasNoAlias(m, next.value, visited + {alias}, universe);
    }
  }

  /**
   * The resolution of a connection: without alias, its own section; with
   * an alias to itself, an IllegalStateException; a result never names an
   * alias; and following an alias gives the same result as resolving its
   * target directly.
   */
  lemma ResolveSpec(m: map<string, Entry>, name: string)
    ensures AliasOf(m, name).None? ==> Resolve(m, name) == Ok(ConnectionSection(m, name))
    ensures AliasOf(m, name) == Some(name) ==> Resolve(m, name) == Fail(IllegalState)
    ensures Resolve(m, name).Ok? ==> GetString(Resolve(m, name).value, ALIAS_KEY).None?
    ensures AliasOf(m, name).Some? && Resolve(m, name).Ok? ==>
      Resolve(m, AliasOf(m, name).value) == Resolve(m, name)
  {
    var universe := Universe(m, name);
    if AliasOf(m, name) == Some(name) {
      AliasIsValue(m, name);
      assert Resolve(m, name) == ResolveFrom(m, name, {} + {name}, universe);
      assert {} + {name} == {name};
    }
    if Resolve(m, name).Ok? {
      ResolvedHasNoAlias(m, name, {}, universe);
      if AliasOf(m, name).Some? {
        var target := AliasOf(m, name).value;
        AliasIsValue(m, name);
        assert Resolve(m, name) == ResolveFrom(m, target, {} + {name}, universe);
        assert {} + {name} == {name};
        ResolveFromFewer(m, target, {name}, universe, {}, Universe(m, target));
      }
    }
  }

  /** Two sections naming each other as alias cannot be resolved. */
  lemma AliasCycle(m: map<string, Entry>, a: string, b: string)
    requires AliasOf(m, a) == Some(b) && AliasOf(m, b) == Some(a)
    ensures Resolve(m, a) == Fail(IllegalState)
  {
    AliasIsValue(m, a);
    AliasIsValue(m, b);
    var universe := Universe(m, a);
    assert Resolve(m, a) == ResolveFrom(m, b, {} + {a}, universe);
    assert {} + {a} == {a};
    assert ResolveFrom(m, b, {a}, universe) == ResolveFrom(m, a, {a} + {b}, universe);
  }

  /**
   * A defined connection name resolves to a section with a driver class,
   * and a connection mentioned in the databases section without alias is
   * defined exactly when its own section has a driver class.
   */
  lemma DefinedNamesSpec(m: map<string, Entry>, name: string)
    requires DefinedNames(m).Ok?
    ensures name in DefinedNames(m).value ==>
      Resolve(m, name).Ok? && GetString(Resolve(m, name).value, JDBC_DRIVER_CLASS).Some?
    ensures name in DatabaseNames(m) && AliasOf(m, name).None? ==>
      (name in DefinedNames(m).value <==> GetString(ConnectionSection(m, name), JDBC_DRIVER_CLASS).Some?)
  {
    ResolveSpec(m, name);
  }

  /**
   * A connection resolves to a configuration exactly when its section has
   * the four mandatory values; pooling is on only for "true" in any case.
   */
  lemma ConnectionConfigurationSpec(m: map<string, Entry>, name: string)
    requires Resolve(m, name).Ok?
    ensures var c := Resolve(m, name).value;
      ConnectionConfiguration(m, name).Ok? <==>
        GetString(c, JDBC_DRIVER_CLASS).Some? && GetString(c, JDBC_URL_KEY).Some? &&
        GetString(c, JDBC_USER_KEY).Some? && GetString(c, JDBC_PASSWORD_KEY).Some?
    ensures var c := Resolve(m, name).value;
      ConnectionConfiguration(m, name).Ok? ==>
        ConnectionConfiguration(m, name).value.url == GetString(c, JDBC_URL_KEY).value &&
        (ConnectionConfiguration(m, name).value.pooling <==>
          GetString(c, JDBC_POOLING_KEY).Some? && EqualsIgnoreCase(GetString(c, JDBC_POOLING_KEY).value, "true"))
  {
  }
}
