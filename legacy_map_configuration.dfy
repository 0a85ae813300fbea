/**
 * The older MapConfiguration: the same nested maps, but a key is always
 * split into segments (no top-level key is tried whole), and get of a key
 * naming a map is an IllegalArgumentException instead of nothing.
 */
module LegacyMapConfigurations {
  import opened Wrappers
  import opened Strings
  import opened MapConfigurations

  /** getObject: the walk along the key's segments. */
  method LegacyGetObject(m: map<string, Entry>, key: string) returns (r: Option<Entry>)
    ensures r == Lookup(m, SplitKey(key))
  {
    r := Walk(m, SplitKey(key));
  }

  /** get: a key naming a map is refused. */
  function LegacyGet(m: map<string, Entry>, key: string): (r: Result<Option<Entry>>)
    ensures r.Fail? <==> Lookup(m, SplitKey(key)).Some? && Lookup(m, SplitKey(key)).value.Nested?
    ensures r.Fail? ==> r.error == IllegalArgument
    ensures r.Ok? ==> r.value == Lookup(m, SplitKey(key)) && (r.value.Some? ==> r.value.value.Leaf?)
  {
    var entry := Lookup(m, SplitKey(key));
    if entry.Some? && entry.value.Nested? then Fail(IllegalArgument) else Ok(entry)
  }

  /** getSubconfiguration: the map at the key's path, or the empty configuration. */
  function LegacySubconfiguration(m: map<string, Entry>, key: string): map<string, Entry>
  {
    var entry := Lookup(m, SplitKey(key));
    if entry.Some? && entry.value.Nested? then entry.value.entries else map[]
  }

  // ---------------------------------------------------------------------
  // Lemmas

  /**
   * The two versions agree wherever the newer one does not take its
   * shortcut: a value is the same value, and where the older one refuses a
   * map the newer one gives nothing. Without dotted keys they agree on
   * every key.
   */
  lemma LegacyAgrees(m: map<string, Entry>, key: string)
    requires key !in m || NoDots(Nested(m))
    ensures LegacyGet(m, key).Ok? ==> Get(m, key) == LegacyGet(m, key).value
    ensures LegacyGet(m, key).Fail? ==> Get(m, key) == None
    ensures LegacySubconfiguration(m, key) == Subconfiguration(m, key)
  {
    if key in m {
      ObjectAtIsLookup(m, key);
    }
  }

  /**
   * A top-level key "a.b" next to a map "a" holding "b": the newer get
   * takes the top-level value, the older one walks into the map.
   */
  lemma LiteralKeyShortcut()
    ensures var m := map["a.b" := Leaf("1"), "a" := Nested(map["b" := Leaf("2")])];
      Get(m, "a.b") == Some(Leaf("1")) && LegacyGet(m, "a.b") == Ok(Some(Leaf("2")))
  {
    var m := map["a.b" := Leaf("1"), "a" := Nested(map["b" := Leaf("2")])];
    SplitJoinChar(["a", "b"], '.');
    assert Join(["a", "b"], ".") == "a.b";
    assert SplitKey("a.b") == ["a", "b"];
  }

  /**
   * Without dotted keys, listKeys gives exactly the keys the older get
   * resolves to a value; every other key gives nothing or is refused.
   */
  lemma LegacyListedKeysResolve(m: map<string, Entry>)
    requires NoDots(Nested(m))
    ensures forall s :: s in ListedKeys(m, None) <==> LegacyGet(m, s).Ok? && LegacyGet(m, s).value.Some?
  {
    ListedKeysResolve(m);
    forall s
      ensures Get(m, s).Some? <==> LegacyGet(m, s).Ok? && LegacyGet(m, s).value.Some?
    {
      LegacyAgrees(m, s);
    }
  }

  /**
   * In the older version getSubconfiguration(key).get(x) is always
   * get(key + "." + x), dotted keys or not.
   */
  lemma LegacySubconfigurationGet(m: map<string, Entry>, key: string, x: string)
    ensures LegacyGet(LegacySubconfiguration(m, key), x) == LegacyGet(m, key + "." + x)
  {
    SplitCharConcat(key, x, '.');
    assert key + "." + x == key + ['.'] + x;
    LookupAppend(m, SplitKey(key), SplitKey(x));
  }
}
