/**
 * The header-properties splitter both convention-file parsers use: Guava's
 * Splitter.on(';').omitEmptyStrings().trimResults() with a key-value
 * separator Splitter.on(":").trimResults(). Every entry must split into
 * exactly a key and a value, and a key may appear once; anything else is an
 * IllegalArgumentException.
 */
module MapSplitter {
  import opened Wrappers
  import opened Strings

  /** One entry split on ':' with each field trimmed: a key and a value, or None unless there are exactly two fields. */
  function ParseEntry(entry: string): Option<(string, string)>
  {
    var fields := SplitOn(entry, ":");
    if |fields| != 2 then None else Some((GuavaTrim(fields[0]), GuavaTrim(fields[1])))
  }

  /** The trimmed text before the first ':' of an entry. */
  function EntryKey(entry: string): string
  {
    GuavaTrim(SplitOn(entry, ":")[0])
  }

  function ParseEntries(entries: seq<string>): (r: seq<Option<(string, string)>>)
    ensures |r| == |entries| && forall k :: 0 <= k < |entries| ==> r[k] == ParseEntry(entries[k])
  {
    seq(|entries|, k requires 0 <= k < |entries| => ParseEntry(entries[k]))
  }

  /**
   * Puts the parsed entries into `acc` one by one, as MapSplitter.split does:
   * a key already present or an entry without exactly one ':' is an
   * IllegalArgumentException.
   */
  function PutEntries(parsed: seq<Option<(string, string)>>, acc: map<string, string>): Result<map<string, string>>
  {
    if parsed == [] then Ok(acc)
    else
      match parsed[0]
      case None => Fail(IllegalArgument)
      case Some(entry) =>
        if entry.0 in acc then Fail(IllegalArgument) else PutEntries(parsed[1..], acc[entry.0 := entry.1])
  }

  /** Adds the entries to `acc` in order. */
  function SplitEntries(entries: seq<string>, acc: map<string, string>): Result<map<string, string>>
  {
    PutEntries(ParseEntries(entries), acc)
  }

  /** The map "k1: v1; k2: v2" denotes. */
  function SplitProperties(text: string): Result<map<string, string>>
  {
    SplitEntries(TrimmedNonEmpty(SplitOn(text, ";")), map[])
  }

  /** No whitespace at either end, so trimming leaves the string alone. */
  predicate NoEdgeSpace(s: string)
  {
    s == [] || (!IsWhitespace(s[0]) && !IsWhitespace(s[|s| - 1]))
  }

  lemma TrimNoEdgeSpace(s: string)
    requires NoEdgeSpace(s)
    ensures GuavaTrim(s) == s
  {
  }

  /** A key or value that can be written in a header: no separators and nothing to trim. */
  predicate Writable(s: string)
  {
    ';' !in s && ':' !in s && NoEdgeSpace(s)
  }

  function Entry(p: (string, string)): string
  {
    p.0 + ":" + p.1
  }

  /** Writes the pairs as a header text "k1:v1;k2:v2". */
  function Render(pairs: seq<(string, string)>): string
  {
    Join(Entries(pairs), ";")
  }

  predicate DistinctKeys(pairs: seq<(string, string)>)
  {
    forall i, j :: 0 <= i < j < |pairs| ==> pairs[i].0 != pairs[j].0
  }

  lemma EntryFields(p: (string, string))
    requires Writable(p.0) && Writable(p.1)
    ensures SplitOn(Entry(p), ":") == [p.0, p.1]
    ensures GuavaTrim(Entry(p)) == Entry(p) && Entry(p) != ""
    ensures ';' !in Entry(p)
  {
    assert Join([p.0, p.1], [':']) == Entry(p);
    SplitJoinChar([p.0, p.1], ':');
    var e := Entry(p);
    assert e[0] == (if |p.0| > 0 then p.0[0] else ':');
    assert e[|e| - 1] == (if |p.1| > 0 then p.1[|p.1| - 1] else ':');
    TrimNoEdgeSpace(e);
  }

  /** The keys of the pairs. */
  function KeysOf(pairs: seq<(string, string)>): set<string>
  {
    if pairs == [] then {} else {pairs[0].0} + KeysOf(pairs[1..])
  }

  lemma {:induction false} KeysOfMembers(pairs: seq<(string, string)>, x: string)
    ensures x in KeysOf(pairs) <==> exists k :: 0 <= k < |pairs| && pairs[k].0 == x
  {
    if pairs != [] {
      KeysOfMembers(pairs[1..], x);
      if exists k :: 0 <= k < |pairs| && pairs[k].0 == x {
        var k :| 0 <= k < |pairs| && pairs[k].0 == x;
        if k > 0 { assert pairs[1..][k - 1].0 == x; }
      }
      if exists k :: 0 <= k < |pairs[1..]| && pairs[1..][k].0 == x {
        var k :| 0 <= k < |pairs[1..]| && pairs[1..][k].0 == x;
        assert pairs[k + 1].0 == x;
      }
    }
  }

  function Entries(pairs: seq<(string, string)>): (r: seq<string>)
    ensures |r| == |pairs| && forall k :: 0 <= k < |pairs| ==> r[k] == Entry(pairs[k])
  {
    seq(|pairs|, i requires 0 <= i < |pairs| => Entry(pairs[i]))
  }

  /** A writable pair, rendered, parses back to itself. */
  lemma EntryParses(p: (string, string))
    requires Writable(p.0) && Writable(p.1)
    ensures ParseEntry(Entry(p)) == Some(p)
  {
    EntryFields(p);
    TrimNoEdgeSpace(p.0);
    TrimNoEdgeSpace(p.1);
  }

  function Parsed(pairs: seq<(string, string)>): (r: seq<Option<(string, string)>>)
    ensures |r| == |pairs| && forall k :: 0 <= k < |pairs| ==> r[k] == Some(pairs[k])
  {
    seq(|pairs|, k requires 0 <= k < |pairs| => Some(pairs[k]))
  }

  lemma ParseRendered(pairs: seq<(string, string)>)
    requires forall k :: 0 <= k < |pairs| ==> Writable(pairs[k].0) && Writable(pairs[k].1)
    ensures ParseEntries(Entries(pairs)) == Parsed(pairs)
  {
    forall k | 0 <= k < |pairs| ensures ParseEntry(Entries(pairs)[k]) == Some(pairs[k]) {
      EntryParses(pairs[k]);
    }
  }

  /** The map built by putting the pairs into `acc` in order. */
  function PutAll(pairs: seq<(string, string)>, acc: map<string, string>): map<string, string>
  {
    if pairs == [] then acc else PutAll(pairs[1..], acc[pairs[0].0 := pairs[0].1])
  }

  lemma {:induction false} PutAllContents(pairs: seq<(string, string)>, acc: map<string, string>)
    requires DistinctKeys(pairs)
    ensures PutAll(pairs, acc).Keys == acc.Keys + KeysOf(pairs)
    ensures forall k :: 0 <= k < |pairs| ==> pairs[k].0 in PutAll(pairs, acc) && PutAll(pairs, acc)[pairs[k].0] == pairs[k].1
    ensures forall x :: x in acc && x !in KeysOf(pairs) ==> PutAll(pairs, acc)[x] == acc[x]
  {
    if pairs != [] {
      var rest := pairs[1..];
      var acc' := acc[pairs[0].0 := pairs[0].1];
      PutAllContents(rest, acc');
      KeysOfMembers(rest, pairs[0].0);
      forall k | 0 <= k < |pairs| ensures pairs[k].0 in PutAll(pairs, acc) && PutAll(pairs, acc)[pairs[k].0] == pairs[k].1 {
        if k > 0 { assert pairs[k] == rest[k - 1]; }
      }
    }
  }

  lemma {:induction false} PutParsedPairs(pairs: seq<(string, string)>, acc: map<string, string>)
    requires DistinctKeys(pairs)
    requires forall k :: 0 <= k < |pairs| ==> pairs[k].0 !in acc
    ensures PutEntries(Parsed(pairs), acc) == Ok(PutAll(pairs, acc))
  {
    if pairs != [] {
      var rest := pairs[1..];
      assert Parsed(pairs)[1..] == Parsed(rest);
      assert forall k :: 0 <= k < |rest| ==> rest[k] == pairs[k + 1];
      PutParsedPairs(rest, acc[pairs[0].0 := pairs[0].1]);
    }
  }

  lemma SplitEntriesPairs(pairs: seq<(string, string)>, acc: map<string, string>)
    requires forall k :: 0 <= k < |pairs| ==> Writable(pairs[k].0) && Writable(pairs[k].1)
    requires DistinctKeys(pairs)
    requires forall k :: 0 <= k < |pairs| ==> pairs[k].0 !in acc
    ensures SplitEntries(Entries(pairs), acc) == Ok(PutAll(pairs, acc))
  {
    ParseRendered(pairs);
    PutParsedPairs(pairs, acc);
  }

  /** Splitting a rendered header on ';' gives back its entries. */
  lemma RenderEntries(pairs: seq<(string, string)>)
    requires forall k :: 0 <= k < |pairs| ==> Writable(pairs[k].0) && Writable(pairs[k].1)
    ensures TrimmedNonEmpty(SplitOn(Render(pairs), ";")) == Entries(pairs)
  {
    var entries := Entries(pairs);
    forall k | 0 <= k < |pairs| ensures entries[k] != "" && GuavaTrim(entries[k]) == entries[k] && ';' !in entries[k] {
      EntryFields(pairs[k]);
    }
    if pairs == [] {
      assert SplitOn("", ";") == [""];
    } else {
      SplitJoinChar(entries, ';');
      TrimmedNonEmptyKeeps(entries);
    }
  }

  /**
   * Round trip: a header written from pairs with distinct, writable keys and
   * writable values splits back into exactly those pairs.
   */
  lemma SplitRender(pairs: seq<(string, string)>)
    requires forall k :: 0 <= k < |pairs| ==> Writable(pairs[k].0) && Writable(pairs[k].1)
    requires DistinctKeys(pairs)
    ensures var r := SplitProperties(Render(pairs));
      r.Ok? && r.value.Keys == KeysOf(pairs) &&
      forall k :: 0 <= k < |pairs| ==> pairs[k].0 in r.value && r.value[pairs[k].0] == pairs[k].1
  {
    RenderEntries(pairs);
    SplitEntriesPairs(pairs, map[]);
    PutAllContents(pairs, map[]);
  }

  /** The split fails only with IllegalArgumentException. */
  lemma {:induction false} PutEntriesErrors(parsed: seq<Option<(string, string)>>, acc: map<string, string>)
    ensures PutEntries(parsed, acc).Fail? ==> PutEntries(parsed, acc).error == IllegalArgument
  {
    if parsed != [] && parsed[0].Some? && parsed[0].value.0 !in acc {
      PutEntriesErrors(parsed[1..], acc[parsed[0].value.0 := parsed[0].value.1]);
    }
  }

  lemma {:induction false} PutMalformedFails(parsed: seq<Option<(string, string)>>, acc: map<string, string>, k: nat)
    requires k < |parsed| && parsed[k].None?
    ensures PutEntries(parsed, acc).Fail?
  {
    if k > 0 && parsed[0].Some? && parsed[0].value.0 !in acc {
      PutMalformedFails(parsed[1..], acc[parsed[0].value.0 := parsed[0].value.1], k - 1);
    }
  }

  lemma {:induction false} PutKeyPresentFails(parsed: seq<Option<(string, string)>>, acc: map<string, string>, j: nat)
    requires j < |parsed| && parsed[j].Some? && parsed[j].value.0 in acc
    ensures PutEntries(parsed, acc).Fail?
  {
    if j > 0 && parsed[0].Some? && parsed[0].value.0 !in acc {
      PutKeyPresentFails(parsed[1..], acc[parsed[0].value.0 := parsed[0].value.1], j - 1);
    }
  }

  lemma {:induction false} PutDuplicateFails(parsed: seq<Option<(string, string)>>, acc: map<string, string>, i: nat, j: nat)
    requires i < j < |parsed| && parsed[i].Some? && parsed[j].Some? && parsed[i].value.0 == parsed[j].value.0
    ensures PutEntries(parsed, acc).Fail?
  {
    if parsed[0].Some? && parsed[0].value.0 !in acc {
      var acc' := acc[parsed[0].value.0 := parsed[0].value.1];
      if i > 0 {
        PutDuplicateFails(parsed[1..], acc', i - 1, j - 1);
      } else {
        PutKeyPresentFails(parsed[1..], acc', j - 1);
      }
    }
  }

  /** An entry that is not exactly "key:value" (no ':' at all, or two of them) makes the whole split fail. */
  lemma MalformedEntryFails(entries: seq<string>, acc: map<string, string>, k: nat)
    requires k < |entries| && |SplitOn(entries[k], ":")| != 2
    ensures SplitEntries(entries, acc).Fail?
  {
    PutMalformedFails(ParseEntries(entries), acc, k);
  }

  /** A key given twice makes the whole split fail. */
  lemma DuplicateKeyFails(entries: seq<string>, acc: map<string, string>, i: nat, j: nat)
    requires i < j < |entries|
    requires EntryKey(entries[i]) == EntryKey(entries[j])
    ensures SplitEntries(entries, acc).Fail?
  {
    var parsed := ParseEntries(entries);
    if parsed[i].None? {
      PutMalformedFails(parsed, acc, i);
    } else if parsed[j].None? {
      PutMalformedFails(parsed, acc, j);
    } else {
      PutDuplicateFails(parsed, acc, i, j);
    }
  }
}
