/**
 * MapConfiguration: a hierarchical configuration stored as nested maps. The
 * outer map holds the first segment of every dotted key, the maps one level
 * down the second segment, and so on; a leaf holds the value.
 * Keys are split and joined on '.' (KeyUtils is not part of this model).
 */
module MapConfigurations {
  import opened Wrappers
  import opened Strings

  /** A configuration value: a leaf (its text) or a map for the next key segment. */
  datatype Entry = Leaf(value: string) | Nested(entries: map<string, Entry>)

  /** KeyUtils.splitKey: the segments of a dotted key. */
  function SplitKey(key: string): (r: seq<string>)
    ensures |r| >= 1
  {
    SplitOn(key, ".")
  }

  /** KeyUtils.joinKey: a key under a prefix; no prefix leaves the key alone. */
  function JoinKey(prefix: Option<string>, key: string): string
  {
    if prefix.None? then key else prefix.value + "." + key
  }

  /**
   * The entry at a path of segments: every segment but the last must lead
   * to a map; a missing segment or a leaf on the way gives nothing.
   */
  function Lookup(m: map<string, Entry>, path: seq<string>): Option<Entry>
    decreases |path|
  {
    if path == [] || path[0] !in m then None
    else if |path| == 1 then Some(m[path[0]])
    else if m[path[0]].Nested? then Lookup(m[path[0]].entries, path[1..])
    else None
  }

  /** The walk of getObject: the current map is replaced by the entry of each segment but the last. */
  method Walk(m: map<string, Entry>, path: seq<string>) returns (r: Option<Entry>)
    ensures r == Lookup(m, path)
  {
    var current := m;
    var i := 0;
    while i < |path|
      invariant 0 <= i <= |path|
      invariant Lookup(m, path) == Lookup(current, path[i..])
      decreases |path| - i
    {
      assert path[i..][0] == path[i] && path[i..][1..] == path[i + 1..];
      var part := path[i];
      if part !in current {
        return None;
      }
      var entry := current[part];
      if i + 1 == |path| {
        return Some(entry);
      }
      if entry.Nested? {
        current := entry.entries;
      } else {
        return None;
      }
      i := i + 1;
    }
    r := None;
  }

  /** getObject as a function: a top-level key equal to the whole key first, then the walk. */
  function ObjectAt(m: map<string, Entry>, key: string): Option<Entry>
  {
    if key in m then Some(m[key]) else Lookup(m, SplitKey(key))
  }

  /** getObject. */
  method GetObject(m: map<string, Entry>, key: string) returns (r: Option<Entry>)
    ensures r == ObjectAt(m, key)
  {
    if key in m {
      return Some(m[key]);
    }
    r := Walk(m, SplitKey(key));
  }

  /** get: the value at the key, or nothing when the key names a map. */
  function Get(m: map<string, Entry>, key: string): (r: Option<Entry>)
    ensures r.Some? ==> r.value.Leaf?
    ensures ObjectAt(m, key).Some? && ObjectAt(m, key).value.Leaf? ==> r == ObjectAt(m, key)
  {
    var entry := ObjectAt(m, key);
    if entry.Some? && entry.value.Nested? then None else entry
  }

  /** getSubconfiguration: the map at the key, or the empty configuration. */
  function Subconfiguration(m: map<string, Entry>, key: string): map<string, Entry>
  {
    var entry := ObjectAt(m, key);
    if entry.Some? && entry.value.Nested? then entry.value.entries else map[]
  }

  /** The paths from an entry down to its leaves; a leaf has the empty path. */
  ghost function LeafPathsOf(e: Entry): set<seq<string>>
  {
    match e
    case Leaf(_) => {[]}
    case Nested(m) => set k, p | k in m && p in LeafPathsOf(m[k]) :: [k] + p
  }

  /** The dotted keys, under the prefix, of the leaves below the given top-level keys. */
  ghost function KeysOf(m: map<string, Entry>, ks: set<string>, prefix: Option<string>): set<string>
  {
    set k, p | k in ks && k in m && p in LeafPathsOf(m[k]) :: JoinKey(prefix, Join([k] + p, "."))
  }

  /** The dotted key of every leaf, under the prefix. */
  ghost function ListedKeys(m: map<string, Entry>, prefix: Option<string>): set<string>
  {
    KeysOf(m, m.Keys, prefix)
  }

  /** listKeys(map, prefix, acc): every entry of the map in turn. */
  method CollectKeys(m: map<string, Entry>, prefix: Option<string>, acc: set<string>) returns (r: set<string>)
    ensures r == acc + ListedKeys(m, prefix)
    decreases Nested(m), 1
  {
    r := acc;
    var todo := m.Keys;
    ghost var done: set<string> := {};
    while todo != {}
      invariant todo <= m.Keys && done == m.Keys - todo
      invariant r == acc + KeysOf(m, done, prefix)
      decreases |todo|
    {
      var k :| k in todo;
      ghost var before := r;
      r := CollectEntry(m, k, prefix, r);
      KeysOfAdd(m, done, k, prefix);
      UnionStep(acc, KeysOf(m, done, prefix), KeysOf(m, {k}, prefix), before, r);
      done := done + {k};
      todo := todo - {k};
    }
  }

  /** The body of the loop of listKeys: a leaf's key is added, a map is listed under its key. */
  method CollectEntry(m: map<string, Entry>, k: string, prefix: Option<string>, acc: set<string>) returns (r: set<string>)
    requires k in m
    ensures r == acc + KeysOf(m, {k}, prefix)
    decreases Nested(m), 0
  {
    var key := JoinKey(prefix, k);
    KeysOfOne(m, k, prefix);
    if m[k].Nested? {
      assert Nested(m[k].entries) == m[k];
      r := CollectKeys(m[k].entries, Some(key), acc);
    } else {
      r := acc + {key};
    }
  }

  lemma UnionStep(acc: set<string>, a: set<string>, b: set<string>, before: set<string>, after: set<string>)
    requires before == acc + a && after == before + b
    ensures after == acc + (a + b)
  {
  }

  /** listKeys(). */
  method ListKeys(m: map<string, Entry>) returns (keys: set<string>)
    ensures keys == ListedKeys(m, None)
  {
    keys := CollectKeys(m, None, {});
  }

  /** No key at any level contains '.'. */
  predicate NoDots(e: Entry)
  {
    match e
    case Leaf(_) => true
    case Nested(m) => forall k :: k in m ==> '.' !in k && NoDots(m[k])
  }

  // ---------------------------------------------------------------------
  // Lemmas

  /** A dotted key under a prefix: joining the first segment onto the prefix first gives the same key. */
  lemma JoinKeyCons(prefix: Option<string>, k: string, p: seq<string>)
    requires |p| >= 1
    ensures JoinKey(prefix, Join([k] + p, ".")) == JoinKey(Some(JoinKey(prefix, k)), Join(p, "."))
  {
    JoinCons(k, p, ".");
    var rest := Join(p, ".");
    if prefix.Some? {
      ConcatAssoc(prefix.value, k, rest, ".");
    }
  }

  lemma JoinCons(k: string, p: seq<string>, sep: string)
    requires |p| >= 1
    ensures Join([k] + p, sep) == k + sep + Join(p, sep)
  {
    assert ([k] + p)[0] == k && ([k] + p)[1..] == p;
  }

  lemma ConcatAssoc(a: string, b: string, c: string, sep: string)
    ensures a + sep + (b + sep + c) == (a + sep + b) + sep + c
  {
  }

  /** The keys of one top-level entry: its own key for a leaf, the keys of its map under that key otherwise. */
  lemma KeysOfOne(m: map<string, Entry>, k: string, prefix: Option<string>)
    requires k in m
    ensures m[k].Leaf? ==> KeysOf(m, {k}, prefix) == {JoinKey(prefix, k)}
    ensures m[k].Nested? ==> KeysOf(m, {k}, prefix) == ListedKeys(m[k].entries, Some(JoinKey(prefix, k)))
  {
    if m[k].Leaf? {
      var p: seq<string> := [];
      assert p in LeafPathsOf(m[k]);
      assert [k] + p == [k];
      assert JoinKey(prefix, Join([k] + p, ".")) in KeysOf(m, {k}, prefix);
    } else {
      var sm := m[k].entries;
      var under := Some(JoinKey(prefix, k));
      forall x | x in KeysOf(m, {k}, prefix)
        ensures x in ListedKeys(sm, under)
      {
        var k', p :| k' in {k} && k' in m && p in LeafPathsOf(m[k']) && x == JoinKey(prefix, Join([k'] + p, "."));
        var k2, q :| k2 in sm && q in LeafPathsOf(sm[k2]) && p == [k2] + q;
        JoinKeyCons(prefix, k, p);
      }
      forall x | x in ListedKeys(sm, under)
        ensures x in KeysOf(m, {k}, prefix)
      {
        var k2, q :| k2 in sm && q in LeafPathsOf(sm[k2]) && x == JoinKey(under, Join([k2] + q, "."));
        var p := [k2] + q;
        assert p in LeafPathsOf(m[k]);
        JoinKeyCons(prefix, k, p);
      }
    }
  }

  lemma KeysOfAdd(m: map<string, Entry>, done: set<string>, k: string, prefix: Option<string>)
    requires k in m
    ensures KeysOf(m, done + {k}, prefix) == KeysOf(m, done, prefix) + KeysOf(m, {k}, prefix)
  {
  }

  /** A path to a leaf, found by the walk. */
  lemma {:induction false} LookupLeafPath(m: map<string, Entry>, k: string, p: seq<string>)
    requires k in m && p in LeafPathsOf(m[k])
    ensures Lookup(m, [k] + p).Some? && Lookup(m, [k] + p).value.Leaf?
    decreases |p|
  {
    var path := [k] + p;
    assert path[0] == k && path[1..] == p;
    if p != [] {
      var sm := m[k].entries;
      var k2, q :| k2 in sm && q in LeafPathsOf(sm[k2]) && p == [k2] + q;
      LookupLeafPath(sm, k2, q);
    }
  }

  /** What the walk finds as a leaf lies on a leaf path. */
  lemma {:induction false} LeafPathOfLookup(m: map<string, Entry>, path: seq<string>)
    requires Lookup(m, path).Some? && Lookup(m, path).value.Leaf?
    ensures |path| >= 1 && path[0] in m && path[1..] in LeafPathsOf(m[path[0]])
    decreases |path|
  {
    if |path| > 1 {
      var sm := m[path[0]].entries;
      LeafPathOfLookup(sm, path[1..]);
      assert path[1..] == [path[1]] + path[2..];
      assert path[1..][1..] == path[2..];
      assert m[path[0]] == Nested(sm);
      assert [path[1]] + path[2..] in LeafPathsOf(Nested(sm));
    } else {
      assert path[1..] == [];
    }
  }

  /** Under maps without dotted keys, every segment of a leaf path is free of '.'. */
  lemma {:induction false} LeafPathSegments(e: Entry, p: seq<string>)
    requires NoDots(e) && p in LeafPathsOf(e)
    ensures forall i :: 0 <= i < |p| ==> '.' !in p[i]
    decreases |p|
  {
    if p != [] {
      var m := e.entries;
      var k, q :| k in m && q in LeafPathsOf(m[k]) && p == [k] + q;
      LeafPathSegments(m[k], q);
      assert forall i :: 1 <= i < |p| ==> p[i] == q[i - 1];
    }
  }

  /** The walk keeps to maps without dotted keys. */
  lemma {:induction false} LookupNoDots(m: map<string, Entry>, path: seq<string>)
    requires NoDots(Nested(m)) && Lookup(m, path).Some?
    ensures NoDots(Lookup(m, path).value)
    decreases |path|
  {
    if |path| > 1 {
      LookupNoDots(m[path[0]].entries, path[1..]);
    }
  }

  /** Without dotted keys, the literal-key shortcut finds what the walk finds. */
  lemma ObjectAtIsLookup(m: map<string, Entry>, key: string)
    requires NoDots(Nested(m))
    ensures ObjectAt(m, key) == Lookup(m, SplitKey(key))
  {
    if key in m {
      ContainsChar(key, '.');
      SplitOnAbsent(key, ".");
    }
  }

  /**
   * When no key contains '.', listKeys gives exactly the keys that get
   * resolves to a value: every listed key is present, and every key get
   * finds is listed.
   */
  lemma ListedKeysResolve(m: map<string, Entry>)
    requires NoDots(Nested(m))
    ensures forall s :: s in ListedKeys(m, None) <==> Get(m, s).Some?
  {
    forall s | s in ListedKeys(m, None)
      ensures Get(m, s).Some?
    {
      var k, p :| k in m && p in LeafPathsOf(m[k]) && s == JoinKey(None, Join([k] + p, "."));
      var path := [k] + p;
      assert p in LeafPathsOf(Nested(m)) ==> true;
      LeafPathSegments(m[k], p);
      forall i | 0 <= i < |path|
        ensures '.' !in path[i]
      {
        if i > 0 {
          assert path[i] == p[i - 1];
        }
      }
      SplitJoinChar(path, '.');
      LookupLeafPath(m, k, p);
      ObjectAtIsLookup(m, s);
    }
    forall s | Get(m, s).Some?
      ensures s in ListedKeys(m, None)
    {
      ObjectAtIsLookup(m, s);
      var path := SplitKey(s);
      LeafPathOfLookup(m, path);
      JoinSplitOn(s, ".");
      assert [path[0]] + path[1..] == path;
      assert s == JoinKey(None, Join([path[0]] + path[1..], "."));
    }
  }

  /** The walk along a longer path goes through the entry at its first part. */
  lemma {:induction false} LookupAppend(m: map<string, Entry>, p: seq<string>, q: seq<string>)
    requires |p| >= 1 && |q| >= 1
    ensures Lookup(m, p + q) ==
      (var e := Lookup(m, p); if e.Some? && e.value.Nested? then Lookup(e.value.entries, q) else None)
    decreases |p|
  {
    assert (p + q)[0] == p[0];
    if |p| > 1 && p[0] in m && m[p[0]].Nested? {
      assert (p + q)[1..] == p[1..] + q;
      LookupAppend(m[p[0]].entries, p[1..], q);
    } else if |p| == 1 {
      assert (p + q)[1..] == q;
    }
  }

  /**
   * When no key contains '.', getSubconfiguration(key).get(x) is
   * get(key + "." + x), also when key names no map (both are empty).
   */
  lemma SubconfigurationGet(m: map<string, Entry>, key: string, x: string)
    requires NoDots(Nested(m))
    ensures Get(Subconfiguration(m, key), x) == Get(m, key + "." + x)
  {
    SplitCharConcat(key, x, '.');
    assert key + "." + x == key + ['.'] + x;
    ObjectAtIsLookup(m, key);
    ObjectAtIsLookup(m, key + "." + x);
    LookupAppend(m, SplitKey(key), SplitKey(x));
    var e := Lookup(m, SplitKey(key));
    if e.Some? && e.value.Nested? {
      LookupNoDots(m, SplitKey(key));
      ObjectAtIsLookup(e.value.entries, x);
    }
  }
}
