/**
 * org.zipper.Zipper: `zip` is a direct transposition over the shortest row; the stream
 * collector's accumulator starts an empty container with `zip` of the single row and
 * otherwise truncates and appends; its combiner feeds every column of the second
 * container to the accumulator as if it were a row.
 */
module OrgZipper {
  import opened Nullable
  import opened Transposition

  /**
   * `zip(List<List<T>> lists)`: no rows give a new empty list; otherwise `Collections.min`
   * by size finds the shortest row, and column `i` collects `list.get(i)` of every row. A
   * null list, or a null row among the rows, throws.
   */
  function Zip<T>(lists: Option<seq<Option<seq<T>>>>): (r: Result<seq<seq<T>>>)
    ensures r.Ok? <==> lists.Some? && NoNulls(lists.value)
    ensures r.Ok? ==> r.value == Transpose(Values(lists.value))
  {
    if lists.None? then Err(NullPointer)
    else if |lists.value| == 0 then Ok([])
    else if !NoNulls(lists.value) then Err(NullPointer)
    else
      var rows := Values(lists.value);
      var size := MinLength(rows);
      var cols := seq(size, i requires 0 <= i < size => seq(|rows|, k requires 0 <= k < |rows| => rows[k][i]));
      TransposeAt(rows);
      assert forall i :: 0 <= i < size ==> cols[i] == Column(rows, i);
      Ok(cols)
  }

  /** `zip(List<T>... lists)`: delegates to `zip(Arrays.asList(lists))`, which throws on a null array. */
  function ZipVarargs<T>(lists: array?<Option<seq<T>>>): (r: Result<seq<seq<T>>>)
    reads lists
    ensures r.Ok? <==> lists != null && NoNulls(lists[..])
    ensures r.Ok? ==> r.value == Transpose(Values(lists[..]))
  {
    if lists == null then Err(NullPointer) else Zip(Some(lists[..]))
  }

  /**
   * The accumulator on a non-null row: an empty container gets `zip(source)` appended,
   * where the call resolves to the varargs overload with the one row; otherwise the
   * container is cut to the shorter length and `source[i]` appended to column `i`.
   */
  function AccumulateStep<T>(target: seq<seq<T>>, source: seq<T>): (r: seq<seq<T>>)
    ensures target == [] ==> |r| == |source| && forall j :: 0 <= j < |r| ==> r[j] == [source[j]]
    ensures target != [] ==>
      |r| == Min(|target|, |source|) && forall j :: 0 <= j < |r| ==> r[j] == target[j] + [source[j]]
  {
    if target == [] then
      assert Values([Some(source)]) == [source];
      TransposeSingle(source);
      target + Zip(Some([Some(source)])).value
    else
      var size := Min(|target|, |source|);
      seq(size, i requires 0 <= i < size => target[i] + [source[i]])
  }

  /**
   * The accumulator folded over `rows`, in order, starting from `target`: no rows leave
   * `target` as it is; otherwise the result is empty exactly when the last row is.
   */
  function AccumulateAll<T>(target: seq<seq<T>>, rows: seq<seq<T>>): (r: seq<seq<T>>)
    ensures rows == [] ==> r == target
    ensures rows != [] ==> (r == [] <==> rows[|rows| - 1] == [])
  {
    if rows == [] then target
    else AccumulateStep(AccumulateAll(target, rows[..|rows| - 1]), rows[|rows| - 1])
  }

  /**
   * The sequential collection of `rows`, starting from the supplier's empty list: empty
   * exactly when there are no rows or the last row is empty.
   */
  function Collect<T>(rows: seq<seq<T>>): (r: seq<seq<T>>)
    ensures r == [] <==> (rows == [] || rows[|rows| - 1] == [])
  {
    AccumulateAll([], rows)
  }

  /**
   * The combiner: every column of `list2`, in order, accumulated into `list1` as a row.
   * No columns leave `list1` as it is. On a non-empty `list1` and columns that are all
   * non-empty, it appends to column `j` of `list1` column `j` of the TRANSPOSITION of
   * `list2`, not `list2[j]`.
   */
  function Combined<T>(list1: seq<seq<T>>, list2: seq<seq<T>>): (r: seq<seq<T>>)
    ensures list2 == [] ==> r == list1
    ensures list1 != [] && |list2| > 0 && !HasEmptyRow(list2) ==>
      var t := Transpose(list2);
      r == seq(Min(|list1|, |t|), j requires 0 <= j < Min(|list1|, |t|) => list1[j] + t[j])
  {
    if list1 != [] && |list2| > 0 && !HasEmptyRow(list2) then
      AccumulateAllFromNonEmpty(list1, list2);
      AccumulateAll(list1, list2)
    else
      AccumulateAll(list1, list2)
  }

  /** The mutable container the collector's supplier (`ArrayList::new`) creates. */
  class ZipTarget<T> {
    /** The columns gathered so far; each column is a list the container owns. */
    var cols: seq<seq<T>>

    /** The supplier: an empty list of columns. */
    constructor ()
      ensures cols == []
    {
      cols := [];
    }

    /** `zipCollectorAccumulator(this, source)`: a null row throws before anything changes. */
    method Accumulate(source: Option<seq<T>>) returns (outcome: Outcome)
      modifies this
      ensures source.None? ==> outcome == Fail(NullPointer) && cols == old(cols)
      ensures source.Some? ==> outcome == Pass && cols == AccumulateStep(old(cols), source.value)
    {
      if cols == [] {
        var single := new Option<seq<T>>[1] [source];
        assert single[..] == [source];
        var zipped := ZipVarargs(single);
        if zipped.Err? {
          return Fail(zipped.error);
        }
        cols := cols + zipped.value;
        return Pass;
      }
      if source.None? {
        return Fail(NullPointer);
      }
      var row := source.value;
      var size := Min(|cols|, |row|);
      cols := cols[..size];
      var i := 0;
      while i < size
        invariant |cols| == size && 0 <= i <= size
        invariant forall k :: 0 <= k < i ==> cols[k] == old(cols)[k] + [row[k]]
        invariant forall k :: i <= k < size ==> cols[k] == old(cols)[k]
      {
        cols := cols[i := cols[i] + [row[i]]];
        i := i + 1;
      }
      return Pass;
    }

    /**
     * `zipCollectorCombiner(this, other)`: `other.forEach` runs the accumulator on this
     * container with each of `other`'s columns; returns this container.
     */
    method Combine(other: ZipTarget<T>) returns (r: ZipTarget<T>)
      requires other != this || cols == []
      modifies this
      ensures r == this && cols == Combined(old(cols), other.cols)
    {
      var columns := other.cols;
      var i := 0;
      while i < |columns|
        invariant 0 <= i <= |columns| && other.cols == columns
        invariant cols == AccumulateAll(old(cols), columns[..i])
      {
        assert columns[..i + 1][..i] == columns[..i];
        var _ := Accumulate(Some(columns[i]));
        i := i + 1;
      }
      assert columns[..i] == columns;
      return this;
    }
  }

  // Properties of `zip`

  /** `zip` of no rows is the empty list. */
  lemma ZipNoRows<T>()
    ensures Zip<T>(Some([])) == Ok([])
  {
  }

  /**
   * `zip` of non-null rows has as many columns as the shortest row is long, each holding
   * one element per row, element `j` of row `i` at position `i` of column `j`.
   */
  lemma {:induction false} ZipShape<T>(rows: seq<seq<T>>)
    requires |rows| > 0
    ensures var r := Zip(Some(seq(|rows|, i requires 0 <= i < |rows| => Some(rows[i]))));
      && r.Ok? && |r.value| == MinLength(rows)
      && forall j :: 0 <= j < |r.value| ==>
           |r.value[j]| == |rows| && forall i :: 0 <= i < |rows| ==> r.value[j][i] == rows[i][j]
  {
    var refs := seq(|rows|, i requires 0 <= i < |rows| => Some(rows[i]));
    assert Values(refs) == rows;
    TransposeAt(rows);
  }

  /** `zip` gives the empty list whenever some row, in any position, is empty. */
  lemma {:induction false} ZipEmptyRow<T>(rows: seq<seq<T>>, k: nat)
    requires k < |rows| && rows[k] == []
    ensures Zip(Some(seq(|rows|, i requires 0 <= i < |rows| => Some(rows[i])))) == Ok([])
  {
    var refs := seq(|rows|, i requires 0 <= i < |rows| => Some(rows[i]));
    assert Values(refs) == rows;
    TransposeEmpty(rows);
  }

  // Properties of the collector

  /** The collected result is the transposition of the rows after the last empty row. */
  lemma {:induction false} CollectIsTransposeAfterLastEmpty<T>(rows: seq<seq<T>>)
    ensures Collect(rows) == Transpose(RowsAfterLastEmpty(rows))
  {
    if rows == [] {
      return;
    }
    var init, last := rows[..|rows| - 1], rows[|rows| - 1];
    var prior := RowsAfterLastEmpty(init);
    CollectIsTransposeAfterLastEmpty(init);
    TransposeEmpty(prior);
    if last == [] {
      assert RowsAfterLastEmpty(rows) == [];
    } else if prior == [] {
      assert RowsAfterLastEmpty(rows) == [last];
      TransposeSingle(last);
    } else {
      assert RowsAfterLastEmpty(rows) == prior + [last];
      TransposeSnoc(prior, last);
    }
  }

  /** When no row but possibly the last is empty, the collector agrees with `zip`. */
  lemma {:induction false} CollectIsZip<T>(rows: seq<seq<T>>)
    requires forall i :: 0 <= i < |rows| - 1 ==> rows[i] != []
    ensures Zip(Some(seq(|rows|, i requires 0 <= i < |rows| => Some(rows[i])))) == Ok(Collect(rows))
  {
    var refs := seq(|rows|, i requires 0 <= i < |rows| => Some(rows[i]));
    assert Values(refs) == rows;
    CollectIsTransposeAfterLastEmpty(rows);
    TransposeAfterLastEmpty(rows);
  }

  /**
   * Accumulating non-empty rows into a non-empty container appends to each kept column
   * the matching column of the rows' transposition.
   */
  lemma {:induction false} AccumulateAllFromNonEmpty<T>(target: seq<seq<T>>, rows: seq<seq<T>>)
    requires target != [] && |rows| > 0 && !HasEmptyRow(rows)
    ensures var t := Transpose(rows);
      AccumulateAll(target, rows) == seq(Min(|target|, |t|), j requires 0 <= j < Min(|target|, |t|) => target[j] + t[j])
  {
    var init, last := rows[..|rows| - 1], rows[|rows| - 1];
    assert |last| > 0 by {
      assert last == rows[|rows| - 1];
    }
    TransposeAt(rows);
    if |init| == 0 {
      assert rows == [last];
      TransposeSingle(last);
    } else {
      assert !HasEmptyRow(init) by {
        forall i | 0 <= i < |init| ensures |init[i]| > 0 {
          assert init[i] == rows[i];
        }
      }
      AccumulateAllFromNonEmpty(target, init);
      TransposeAt(init);
      assert rows == init + [last];
      TransposeSnoc(init, last);
      var t', t := Transpose(init), Transpose(rows);
      var prev := AccumulateAll(target, init);
      assert |t'| > 0 && |prev| > 0;
      forall j | 0 <= j < |t|
        ensures t[j] == t'[j] + [last[j]]
      {
      }
      forall j | 0 <= j < Min(|target|, |t|)
        ensures AccumulateAll(target, rows)[j] == target[j] + t[j]
      {
        assert AccumulateAll(target, rows)[j] == prev[j] + [last[j]];
      }
    }
  }

  /** The combiner on [[1], [2], [3]] and [[4], [5], [6]] keeps one column and appends 4, 5 and 6 to it. */
  lemma CombinedColumnsAsRows()
    ensures Combined([[1], [2], [3]], [[4], [5], [6]]) == [[1, 4, 5, 6]]
  {
    var p1, p2 := [[1], [2], [3]], [[4], [5], [6]];
    assert p2[..1] == [[4]] && p2[..2] == [[4], [5]];
    assert [[4]][..0] == [] && [[4], [5]][..1] == [[4]] && p2[..3] == p2;
    var s1 := AccumulateStep(p1, [4]);
    assert |s1| == 1 && s1[0] == [1, 4];
    assert AccumulateAll(p1, [[4]]) == s1 == [[1, 4]];
    var s2 := AccumulateStep(s1, [5]);
    assert |s2| == 1 && s2[0] == [1, 4, 5];
    assert AccumulateAll(p1, [[4], [5]]) == s2 == [[1, 4, 5]];
    var s3 := AccumulateStep(s2, [6]);
    assert |s3| == 1 && s3[0] == [1, 4, 5, 6];
    assert s3 == [[1, 4, 5, 6]];
  }

  /**
   * Collecting [[1, 2, 3]] and [[4, 5, 6]] separately and combining them does not give
   * the transposition [[1, 4], [2, 5], [3, 6]] of the two adjacent partitions.
   */
  lemma {:induction false} CombinedAdjacentCounterexample()
    ensures Collect([[1, 2, 3]]) == [[1], [2], [3]]
    ensures Collect([[4, 5, 6]]) == [[4], [5], [6]]
    ensures Transpose([[1, 2, 3], [4, 5, 6]]) == [[1, 4], [2, 5], [3, 6]]
    ensures Combined(Collect([[1, 2, 3]]), Collect([[4, 5, 6]])) != Transpose([[1, 2, 3], [4, 5, 6]])
  {
    CombinedColumnsAsRows();
    var rows := [[1, 2, 3], [4, 5, 6]];
    TransposeAt(rows);
    assert MinLength(rows) == 3;
    assert Column(rows, 0) == [1, 4];
    assert Column(rows, 1) == [2, 5];
    assert Column(rows, 2) == [3, 6];
  }

  /** The collector disagrees with `zip` on [[1, 2], [], [3, 4]]: it restarts after the empty row. */
  lemma CollectorRestartsAfterEmptyRow()
    ensures Collect([[1, 2], [], [3, 4]]) == [[3], [4]]
    ensures Zip(Some([Some([1, 2]), Some([]), Some([3, 4])])) == Ok([])
  {
    var rows := [[1, 2], [], [3, 4]];
    CollectIsTransposeAfterLastEmpty(rows);
    assert RowsAfterLastEmpty(rows[..2]) == [];
    assert RowsAfterLastEmpty(rows) == [[3, 4]];
    TransposeSingle([3, 4]);
    ZipEmptyRow(rows, 1);
    assert seq(|rows|, i requires 0 <= i < |rows| => Some(rows[i])) == [Some([1, 2]), Some([]), Some([3, 4])];
  }
}
