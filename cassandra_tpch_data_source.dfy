/**
 * CassandraTpchDataSource: TPC-H rows for a Cassandra table whose columns
 * are in another order than the TPC-H columns. `mapping[i]` is the
 * position in the Cassandra table of TPC-H column i; remapList moves every
 * element to its position through an array.
 */
module CassandraTpchDataSources {
  import opened Wrappers
  import opened Strings
  import opened JdbcTypes
  import opened Values
  import opened QueryRowMapper

  /**
   * What output[j] holds after the first n writes output[mapping[i]] :=
   * input[i]: the element of the last of them aimed at j, or null.
   */
  function Written<T>(input: seq<T>, mapping: seq<int>, n: nat, j: int): Option<T>
    requires n <= |input| && n <= |mapping|
  {
    if n == 0 then None
    else if mapping[n - 1] == j then Some(input[n - 1])
    else Written(input, mapping, n - 1, j)
  }

  /** Every target is an index of an array of the given size. */
  predicate InRange(mapping: seq<int>, size: nat)
  {
    forall i :: 0 <= i < |mapping| ==> 0 <= mapping[i] < size
  }

  /** Every position 0..n-1 of the output is written. */
  predicate Covers<T>(input: seq<T>, mapping: seq<int>)
    requires |input| == |mapping|
  {
    forall j :: 0 <= j < |input| ==> Written(input, mapping, |input|, j).Some?
  }

  /**
   * remapList: inputs of different sizes are an IllegalArgumentException, a
   * target outside the array an ArrayIndexOutOfBoundsException, and a
   * position never written leaves a null that ImmutableList.copyOf refuses
   * with a NullPointerException.
   */
  function RemapList<T>(input: seq<T>, mapping: seq<int>): (r: Result<seq<T>>)
    ensures r.Ok? ==> |r.value| == |input|
  {
    if |input| != |mapping| then Fail(IllegalArgument)
    else if !InRange(mapping, |input|) then Fail(IndexOutOfBounds)
    else if !Covers(input, mapping) then Fail(NullPointer)
    else Ok(seq(|input|, j requires 0 <= j < |input| => Written(input, mapping, |input|, j).value))
  }

  /** remapList: the writes into the array, then the copy into a list. */
  method Remap<T>(input: seq<T>, mapping: seq<int>) returns (r: Result<seq<T>>)
    ensures r == RemapList(input, mapping)
  {
    if |input| != |mapping| {
      return Fail(IllegalArgument);
    }
    var output := new Option<T>[|input|](_ => None);
    for i := 0 to |input|
      invariant forall j :: 0 <= j < output.Length ==> output[j] == Written(input, mapping, i, j)
      invariant forall m :: 0 <= m < i ==> 0 <= mapping[m] < |input|
    {
      if !(0 <= mapping[i] < output.Length) {
        assert !InRange(mapping, |input|);
        return Fail(IndexOutOfBounds);
      }
      output[mapping[i]] := Some(input[i]);
    }
    var values: seq<T> := [];
    for j := 0 to output.Length
      invariant |values| == j
      invariant forall m :: 0 <= m < j ==> output[m].Some? && values[m] == output[m].value
    {
      if output[j].None? {
        assert Written(input, mapping, |input|, j).None?;
        return Fail(NullPointer);
      }
      values := values + [output[j].value];
    }
    assert Covers(input, mapping);
    assert values == RemapList(input, mapping).value;
    r := Ok(values);
  }

  /** The positions 0..n-1, in order: the mapping of the three-argument constructor. */
  function Identity(n: nat): (r: seq<int>)
    ensures |r| == n && forall i :: 0 <= i < n ==> r[i] == i
  {
    seq(n, i => i)
  }

  /** Each position 0..n-1 is the target of exactly one element. */
  predicate IsPermutation(mapping: seq<int>, n: nat)
  {
    |mapping| == n && InRange(mapping, n) &&
    (forall i, m :: 0 <= i < m < n ==> mapping[i] != mapping[m]) &&
    (forall j :: 0 <= j < n ==> j in mapping)
  }

  /** The data source: the TPC-H table (by name), the mapping, the remapped column types and the scale factor. */
  datatype CassandraTpchDataSource = CassandraTpchDataSource(
    table: string,
    mapping: seq<int>,
    columnTypes: seq<JdbcType>,
    scaleFactor: real)

  /**
   * The four-argument constructor: a scale factor of zero or less is an
   * IllegalArgumentException; the column types are remapped like every row.
   */
  method NewCassandraTpchDataSource(table: string, mapping: seq<int>, columns: seq<JdbcType>, scaleFactor: real)
    returns (r: Result<CassandraTpchDataSource>)
    ensures scaleFactor <= 0.0 ==> r == Fail(IllegalArgument)
    ensures scaleFactor > 0.0 ==> (r.Ok? <==> RemapList(columns, mapping).Ok?)
    ensures scaleFactor > 0.0 && r.Fail? ==> r.error == RemapList(columns, mapping).error
    ensures r.Ok? ==> r.value == CassandraTpchDataSource(table, mapping, RemapList(columns, mapping).value, scaleFactor)
  {
    if scaleFactor <= 0.0 {
      return Fail(IllegalArgument);
    }
    var columnTypes := Remap(columns, mapping);
    if columnTypes.Fail? {
      return Fail(columnTypes.error);
    }
    r := Ok(CassandraTpchDataSource(table, mapping, columnTypes.value, scaleFactor));
  }

  /** The three-argument constructor: the identity mapping keeps the column types as given. */
  method NewIdentityCassandraTpchDataSource(table: string, columnTypes: seq<JdbcType>, scaleFactor: real)
    returns (r: Result<CassandraTpchDataSource>)
    ensures r.Ok? <==> scaleFactor > 0.0
    ensures r.Fail? ==> r.error == IllegalArgument
    ensures r.Ok? ==> r.value == CassandraTpchDataSource(table, Identity(|columnTypes|), columnTypes, scaleFactor)
  {
    IdentityRemap(columnTypes);
    r := NewCassandraTpchDataSource(table, Identity(|columnTypes|), columnTypes, scaleFactor);
  }

  /** The fields of one TPC-H line, without the final one after the closing '|'. */
  function LineFields(line: string): (r: seq<string>)
    ensures |r| == |SplitOn(line, "|")| - 1
  {
    var fields := SplitOn(line, "|");
    fields[..|fields| - 1]
  }

  /** tpchEntityToObjects: split the line, drop the last field, remap, then convert by column type. */
  method TpchEntityToObjects(source: CassandraTpchDataSource, line: string, parses: Parses) returns (r: Result<seq<Value>>)
    ensures var remapped := RemapList(LineFields(line), source.mapping);
      r == (if remapped.Fail? then Fail(remapped.error) else ConvertRow(source.columnTypes, remapped.value, parses))
  {
    var values := LineFields(line);
    var reallocated := Remap(values, source.mapping);
    if reallocated.Fail? {
      return Fail(reallocated.error);
    }
    r := MapToRow(source.columnTypes, reallocated.value, parses);
  }

  // ---------------------------------------------------------------------
  // Lemmas

  /** With distinct targets, the element aimed at mapping[i] is still there after the later writes. */
  lemma {:induction false} WrittenAt<T>(input: seq<T>, mapping: seq<int>, n: nat, i: nat)
    requires n <= |input| && n <= |mapping| && i < n
    requires forall a, b :: 0 <= a < b < n ==> mapping[a] != mapping[b]
    ensures Written(input, mapping, n, mapping[i]) == Some(input[i])
  {
    if i < n - 1 {
      WrittenAt(input, mapping, n - 1, i);
    }
  }

  /**
   * Two lists are permutations of each other when one holds at p[i] what
   * the other holds at i, for distinct in-range positions p[i].
   */
  lemma {:induction false} PermutedMultiset<T>(a: seq<T>, b: seq<T>, p: seq<int>)
    requires |a| == |b| == |p| && InRange(p, |b|)
    requires forall i, m :: 0 <= i < m < |p| ==> p[i] != p[m]
    requires forall i :: 0 <= i < |a| ==> b[p[i]] == a[i]
    ensures multiset(a) == multiset(b)
    decreases |a|
  {
    if |a| > 0 {
      var n := |a| - 1;
      var k := p[n];
      var b' := b[..k] + b[k + 1..];
      var p' := seq(n, i requires 0 <= i < n => if p[i] < k then p[i] else p[i] - 1);
      forall i | 0 <= i < n
        ensures 0 <= p'[i] < |b'| && b'[p'[i]] == a[i]
      {
        assert p[i] != k;
      }
      forall i, m | 0 <= i < m < n
        ensures p'[i] != p'[m]
      {
        assert p[i] != k && p[m] != k;
      }
      PermutedMultiset(a[..n], b', p');
      assert a == a[..n] + [a[n]];
      assert b == b[..k] + [b[k]] + b[k + 1..];
    }
  }

  /**
   * A permutation mapping never fails: output[mapping[i]] is input[i] for
   * every i, and the output is a permutation of the input.
   */
  lemma RemapPermutation<T>(input: seq<T>, mapping: seq<int>)
    requires IsPermutation(mapping, |input|)
    ensures RemapList(input, mapping).Ok?
    ensures forall i :: 0 <= i < |input| ==> RemapList(input, mapping).value[mapping[i]] == input[i]
    ensures multiset(RemapList(input, mapping).value) == multiset(input)
  {
    var n := |input|;
    forall i | 0 <= i < n
      ensures Written(input, mapping, n, mapping[i]) == Some(input[i])
    {
      WrittenAt(input, mapping, n, i);
    }
    forall j | 0 <= j < n
      ensures Written(input, mapping, n, j).Some?
    {
      assert j in mapping;
      var i :| 0 <= i < |mapping| && mapping[i] == j;
      WrittenAt(input, mapping, n, i);
    }
    var output := RemapList(input, mapping).value;
    PermutedMultiset(input, output, mapping);
  }

  /** The identity mapping of the three-argument constructor leaves every list as it is. */
  lemma IdentityRemap<T>(input: seq<T>)
    ensures RemapList(input, Identity(|input|)) == Ok(input)
  {
    var id := Identity(|input|);
    forall j | 0 <= j < |input|
      ensures j in id
    {
      assert id[j] == j;
    }
    RemapPermutation(input, id);
    var output := RemapList(input, id).value;
    forall i | 0 <= i < |input|
      ensures output[i] == input[i]
    {
      assert output[id[i]] == input[i] && id[i] == i;
    }
    assert output == input;
  }

  /** A mapping of another size than the list is refused, whatever it holds. */
  lemma RemapSizeMismatch<T>(input: seq<T>, mapping: seq<int>)
    requires |input| != |mapping|
    ensures RemapList(input, mapping) == Fail(IllegalArgument)
  {
  }

  /**
   * A TPC-H line ends with '|', so splitting it gives the fields and one
   * blank; tpchEntityToObjects keeps exactly the fields.
   */
  lemma LineFieldsOfLine(fields: seq<string>)
    requires forall k :: 0 <= k < |fields| ==> '|' !in fields[k]
    ensures LineFields(Join(fields + [""], "|")) == fields
  {
    var parts := fields + [""];
    assert forall k :: 0 <= k < |parts| ==> '|' !in parts[k];
    SplitJoinChar(parts, '|');
    assert parts[..|parts| - 1] == fields;
  }
}
