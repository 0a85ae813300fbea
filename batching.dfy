/**
 * Cutting a list of rows into consecutive batches of a fixed size, the last
 * one possibly shorter: the shape of Guava's Lists.partition and of the
 * batching loops of the table loaders.
 */
module Batching {

  /** The batches of at most k rows, in order. */
  function Batches<T>(rows: seq<T>, k: nat): seq<seq<T>>
    requires k >= 1
    decreases |rows|
  {
    if rows == [] then []
    else if |rows| <= k then [rows]
    else [rows[..k]] + Batches(rows[k..], k)
  }

  /** The batches put back together. */
  function Flatten<T>(batches: seq<seq<T>>): seq<T>
  {
    if batches == [] then [] else batches[0] + Flatten(batches[1..])
  }

  /** Every batch holds 1 to k rows, and every batch but the last exactly k. */
  predicate WellCut<T>(batches: seq<seq<T>>, k: nat)
  {
    (forall i :: 0 <= i < |batches| ==> 1 <= |batches[i]| <= k) &&
    (forall i :: 0 <= i < |batches| - 1 ==> |batches[i]| == k)
  }

  /** ceil(n / k). */
  function CeilDiv(n: nat, k: nat): nat
    requires k >= 1
  {
    (n + k - 1) / k
  }

  // ---------------------------------------------------------------------
  // Lemmas

  lemma {:induction false} FlattenAppend<T>(batches: seq<seq<T>>, last: seq<T>)
    ensures Flatten(batches + [last]) == Flatten(batches) + last
  {
    if batches == [] {
      assert batches + [last] == [last];
    } else {
      assert (batches + [last])[1..] == batches[1..] + [last];
      FlattenAppend(batches[1..], last);
    }
  }

  /**
   * The batches concatenate back to the rows, each holds 1 to k rows, only
   * the last may be shorter, and there are ceil(n / k) of them.
   */
  lemma BatchesSpec<T>(rows: seq<T>, k: nat)
    requires k >= 1
    ensures Flatten(Batches(rows, k)) == rows
    ensures WellCut(Batches(rows, k), k)
    ensures |Batches(rows, k)| == CeilDiv(|rows|, k)
  {
    BatchesFlatten(rows, k);
    BatchesCut(rows, k);
    BatchesCount(rows, k);
  }

  lemma {:induction false} BatchesFlatten<T>(rows: seq<T>, k: nat)
    requires k >= 1
    ensures Flatten(Batches(rows, k)) == rows
    decreases |rows|
  {
    if rows == [] {
    } else if |rows| <= k {
      assert Flatten([rows]) == rows + Flatten<T>([]);
    } else {
      var rest := Batches(rows[k..], k);
      BatchesFlatten(rows[k..], k);
      assert ([rows[..k]] + rest)[1..] == rest;
      assert rows[..k] + rows[k..] == rows;
    }
  }

  lemma {:induction false} BatchesCut<T>(rows: seq<T>, k: nat)
    requires k >= 1
    ensures WellCut(Batches(rows, k), k)
    decreases |rows|
  {
    if |rows| > k {
      var rest := Batches(rows[k..], k);
      BatchesCut(rows[k..], k);
      var all := [rows[..k]] + rest;
      assert forall i :: 1 <= i < |all| ==> all[i] == rest[i - 1];
    }
  }

  lemma {:induction false} BatchesCount<T>(rows: seq<T>, k: nat)
    requires k >= 1
    ensures |Batches(rows, k)| == CeilDiv(|rows|, k)
    decreases |rows|
  {
    if rows == [] {
      assert CeilDiv(0, k) == 0 by {
        assert 0 <= k - 1 < k;
      }
    } else if |rows| <= k {
      assert CeilDiv(|rows|, k) == 1 by {
        assert k <= |rows| + k - 1 < 2 * k;
        DivOne(|rows| + k - 1, k);
      }
    } else {
      BatchesCount(rows[k..], k);
      DivStep(|rows| - k + k - 1, k);
      assert |rows| + k - 1 == (|rows| - k + k - 1) + k;
    }
  }

  lemma DivOne(n: nat, k: nat)
    requires k >= 1 && k <= n < 2 * k
    ensures n / k == 1
  {
    DivUnique(n, k, 1, n - k);
  }

  lemma DivStep(n: nat, k: nat)
    requires k >= 1
    ensures (n + k) / k == n / k + 1
  {
    var q := n / k;
    var r := n % k;
    assert (q + 1) * k == q * k + k;
    DivUnique(n + k, k, q + 1, r);
  }

  /** The quotient is the only q with a == q * k + r and 0 <= r < k. */
  lemma DivUnique(a: nat, k: nat, q: int, r: int)
    requires k >= 1 && a == q * k + r && 0 <= r < k
    ensures a / k == q
  {
    var q' := a / k;
    var r' := a % k;
    assert (q - q') * k == r' - r;
    if q > q' {
      assert (q - q') * k >= k by {
        MulAtLeast(q - q', k);
      }
    } else if q < q' {
      assert (q' - q) * k >= k by {
        MulAtLeast(q' - q, k);
      }
    }
  }

  lemma MulAtLeast(d: int, k: nat)
    requires d >= 1
    ensures d * k >= k
  {
    assert d * k == (d - 1) * k + k;
  }

  /** No rows, no batch. */
  lemma BatchesEmpty<T>(rows: seq<T>, k: nat)
    requires k >= 1
    ensures Batches(rows, k) == [] <==> rows == []
  {
  }
}
