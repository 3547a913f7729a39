/**
 * How the two versions of the zipper relate: their accumulators agree, so their
 * sequential collectors agree; their combiners and their `zip` functions do not.
 */
module VersionComparison {
  import opened Nullable
  import opened Transposition
  import Mango = ElectronicMangoZipper
  import Org = OrgZipper

  /** The two accumulators compute the same container on every non-null row. */
  lemma {:induction false} AccumulatorsAgree<T>(target: seq<seq<T>>, row: seq<T>)
    ensures Org.AccumulateStep(target, row) == Mango.AccumulateStep(target, row)
  {
  }

  /** Folding either accumulator over the same rows from the same container gives the same result. */
  lemma {:induction false} AccumulateAllAgree<T>(target: seq<seq<T>>, rows: seq<seq<T>>)
    ensures Org.AccumulateAll(target, rows) == Mango.AccumulateAll(target, rows)
  {
    if rows != [] {
      AccumulateAllAgree(target, rows[..|rows| - 1]);
      AccumulatorsAgree(Mango.AccumulateAll(target, rows[..|rows| - 1]), rows[|rows| - 1]);
    }
  }

  /** The two sequential collectors agree on every list of rows. */
  lemma {:induction false} CollectorsAgree<T>(rows: seq<seq<T>>)
    ensures Org.Collect(rows) == Mango.Collect(rows)
  {
    AccumulateAllAgree([], rows);
  }

  /**
   * The electronicmango `zip` (a collection) and the org.zipper `zip` (a direct
   * transposition) agree when no row but possibly the last is empty, and differ on
   * [[1, 2], [], [3, 4]].
   */
  lemma {:induction false} ZipsAgreeWithoutEarlyEmptyRows<T>(rows: seq<seq<T>>)
    requires forall i :: 0 <= i < |rows| - 1 ==> rows[i] != []
    ensures Org.Zip(Some(seq(|rows|, i requires 0 <= i < |rows| => Some(rows[i])))) == Ok(Mango.Collect(rows))
  {
    Org.CollectIsZip(rows);
    CollectorsAgree(rows);
  }

  /** On [[1, 2], [], [3, 4]] the org.zipper `zip` differs from the electronicmango result. */
  lemma ZipsDisagree()
    ensures Org.Zip(Some([Some([1, 2]), Some([]), Some([3, 4])])) != Ok(Mango.Collect([[1, 2], [], [3, 4]]))
  {
    Mango.EmptyRowRestart();
    Org.CollectorRestartsAfterEmptyRow();
  }

  /** The two combiners differ on the collections of [[1, 2, 3]] and [[4, 5, 6]]. */
  lemma CombinersDisagree()
    ensures Mango.Combined([[1], [2], [3]], [[4], [5], [6]]) == [[1, 4], [2, 5], [3, 6]]
    ensures Mango.Combined([[1], [2], [3]], [[4], [5], [6]]) != Org.Combined([[1], [2], [3]], [[4], [5], [6]])
  {
    Org.CombinedColumnsAsRows();
    var r := Mango.Combined([[1], [2], [3]], [[4], [5], [6]]);
    assert r[0] == [1, 4] && r[1] == [2, 5] && r[2] == [3, 6];
  }
}
