/**
 * org.electronicmango.zipper.Zipper: both `zip` overloads drive one stream collector
 * whose container is a mutable list of columns. The accumulator starts the columns from
 * the first row and afterwards truncates them to the shortest row so far, appending the
 * row's elements; the combiner appends the columns of a second container column by column.
 */
module ElectronicMangoZipper {
  import opened Nullable
  import opened Transposition

  /** `List::add` on a column. */
  function Append<T>(column: seq<T>, x: T): seq<T>
  {
    column + [x]
  }

  /** `List::addAll` on a column. */
  function AppendAll<T>(column: seq<T>, xs: seq<T>): seq<T>
  {
    column + xs
  }

  /**
   * The effect of `insertIntoSmallestSubset`: `target` cut to the shorter of the two
   * lengths, with `inserter` applied to column `i` and `other[i]`.
   */
  function Inserted<T, V>(target: seq<seq<T>>, other: seq<V>, inserter: (seq<T>, V) -> seq<T>): (r: seq<seq<T>>)
    ensures |r| == Min(|target|, |other|)
    ensures forall i :: 0 <= i < |r| ==> r[i] == inserter(target[i], other[i])
  {
    seq(Min(|target|, |other|), i requires 0 <= i < Min(|target|, |other|) => inserter(target[i], other[i]))
  }

  /** One fresh singleton column per element of `row` (`source.stream().map(List::of)`). */
  function Singletons<T>(row: seq<T>): (cols: seq<seq<T>>)
    ensures |cols| == |row|
    ensures forall j :: 0 <= j < |row| ==> cols[j] == [row[j]]
  {
    seq(|row|, j requires 0 <= j < |row| => [row[j]])
  }

  /**
   * The accumulator on a non-null row. An empty container starts over with one singleton
   * column per element; a non-empty one keeps `min(|target|, |row|)` columns, extends kept
   * column `j` by `row[j]` and drops exactly the tail.
   */
  function AccumulateStep<T>(target: seq<seq<T>>, row: seq<T>): (r: seq<seq<T>>)
    ensures target == [] ==> |r| == |row| && forall j :: 0 <= j < |r| ==> r[j] == [row[j]]
    ensures target != [] ==>
      |r| == Min(|target|, |row|) && forall j :: 0 <= j < |r| ==> r[j] == target[j] + [row[j]]
  {
    if target == [] then Singletons(row) else Inserted(target, row, Append)
  }

  /** The combiner: `min(|list1|, |list2|)` columns, column `j` being `list1[j] + list2[j]`. */
  function Combined<T>(list1: seq<seq<T>>, list2: seq<seq<T>>): (r: seq<seq<T>>)
    ensures |r| == Min(|list1|, |list2|)
    ensures forall j :: 0 <= j < |r| ==> r[j] == list1[j] + list2[j]
  {
    Inserted(list1, list2, AppendAll)
  }

  /**
   * The accumulator folded over `rows`, in order, starting from `target`: no rows leave
   * `target` as it is; otherwise the result is empty exactly when the last row is; columns
   * of one common height keep one common height.
   */
  function AccumulateAll<T>(target: seq<seq<T>>, rows: seq<seq<T>>): (r: seq<seq<T>>)
    ensures rows == [] ==> r == target
    ensures rows != [] ==> (r == [] <==> rows[|rows| - 1] == [])
    ensures SameHeight(target) ==> SameHeight(r)
  {
    if rows == [] then target
    else AccumulateStep(AccumulateAll(target, rows[..|rows| - 1]), rows[|rows| - 1])
  }

  /**
   * The sequential collection of `rows`: the supplier's empty list, then the accumulator on
   * each row. It is empty exactly when there are no rows or the last row is empty, and all
   * its columns have one height.
   */
  function Collect<T>(rows: seq<seq<T>>): (r: seq<seq<T>>)
    ensures r == [] <==> (rows == [] || rows[|rows| - 1] == [])
    ensures SameHeight(r)
  {
    AccumulateAll([], rows)
  }

  /** All columns have the height of the first one. */
  predicate SameHeight<T>(cols: seq<seq<T>>)
  {
    forall j :: 0 <= j < |cols| ==> |cols[j]| == |cols[0]|
  }

  /** The mutable container the collector's supplier (`ArrayList::new`) creates. */
  class ZipTarget<T> {
    /** The columns gathered so far; each column is a list the container owns. */
    var cols: seq<seq<T>>

    /** The supplier: an empty list of columns. */
    constructor ()
      ensures cols == []
    {
      cols := [];
    }

    /** `insertIntoSmallestSubset(this, other, inserter)`: truncate, then insert column by column. */
    method InsertIntoSmallestSubset<V>(other: seq<V>, inserter: (seq<T>, V) -> seq<T>)
      modifies this
      ensures cols == Inserted(old(cols), other, inserter)
    {
      var size := Min(|cols|, |other|);
      cols := cols[..size];
      var i := 0;
      while i < |cols|
        invariant |cols| == size && 0 <= i <= size
        invariant forall k :: 0 <= k < i ==> cols[k] == inserter(old(cols)[k], other[k])
        invariant forall k :: i <= k < size ==> cols[k] == old(cols)[k]
      {
        cols := cols[i := inserter(cols[i], other[i])];
        i := i + 1;
      }
    }

    /** `zipCollectorAccumulator(this, source)`: a null row throws before anything changes. */
    method Accumulate(source: Option<seq<T>>) returns (outcome: Outcome)
      modifies this
      ensures source.None? ==> outcome == Fail(NullPointer) && cols == old(cols)
      ensures source.Some? ==> outcome == Pass && cols == AccumulateStep(old(cols), source.value)
    {
      if source.None? {
        return Fail(NullPointer);
      }
      if cols == [] {
        cols := cols + Singletons(source.value);
      } else {
        InsertIntoSmallestSubset(source.value, Append);
      }
      return Pass;
    }

    /** `zipCollectorCombiner(this, other)`: mutates and returns this container. */
    method Combine(other: ZipTarget<T>) returns (r: ZipTarget<T>)
      modifies this
      ensures r == this && cols == Combined(old(cols), old(other.cols))
    {
      InsertIntoSmallestSubset(other.cols, AppendAll);
      return this;
    }
  }

  /**
   * `stream.peek(Objects::requireNonNull).collect(zipCollector())` on a sequential stream
   * of possibly-null rows: the first null row throws, otherwise the result is the
   * collection of all rows.
   */
  method CollectChecked<T>(rows: seq<Option<seq<T>>>) returns (r: Result<seq<seq<T>>>)
    ensures r.Ok? <==> NoNulls(rows)
    ensures r.Ok? ==> r.value == Collect(Values(rows))
  {
    var target := new ZipTarget<T>();
    var i := 0;
    while i < |rows|
      invariant 0 <= i <= |rows| && NoNulls(rows[..i])
      invariant target.cols == Collect(Values(rows[..i]))
    {
      if rows[i].None? {
        return Err(NullPointer);
      }
      ValuesPrefix(rows[..i + 1], i);
      assert rows[..i + 1][..i] == rows[..i];
      ghost var done, next := Values(rows[..i]), Values(rows[..i + 1]);
      assert next[..|next| - 1] == done;
      var _ := target.Accumulate(rows[i]);
      i := i + 1;
    }
    assert rows[..i] == rows;
    return Ok(target.cols);
  }

  /** `zip(List<? extends List<T>> lists)`: a null list or a null row throws. */
  method Zip<T>(lists: Option<seq<Option<seq<T>>>>) returns (r: Result<seq<seq<T>>>)
    ensures r.Ok? <==> lists.Some? && NoNulls(lists.value)
    ensures r.Ok? ==> r.value == Collect(Values(lists.value))
  {
    if lists.None? {
      return Err(NullPointer);
    }
    r := CollectChecked(lists.value);
  }

  /** `zip(List<T>... lists)`: the varargs array; a null array or a null row throws. */
  method ZipVarargs<T>(lists: array?<Option<seq<T>>>) returns (r: Result<seq<seq<T>>>)
    ensures r.Ok? <==> lists != null && NoNulls(lists[..])
    ensures r.Ok? ==> r.value == Collect(Values(lists[..]))
  {
    if lists == null {
      return Err(NullPointer);
    }
    r := CollectChecked(lists[..]);
  }

  // Properties of the accumulator and the combiner

  /** Every column has length `height`. */
  predicate Rectangular<T>(cols: seq<seq<T>>, height: nat)
  {
    forall j :: 0 <= j < |cols| ==> |cols[j]| == height
  }

  /** The accumulator keeps the container rectangular, one row taller (height 1 after a restart). */
  lemma AccumulatePreservesHeight<T>(target: seq<seq<T>>, height: nat, row: seq<T>)
    requires Rectangular(target, height)
    ensures Rectangular(AccumulateStep(target, row), if target == [] then 1 else height + 1)
  {
  }

  /**
   * The collected result is the transposition of the rows after the last empty row:
   * an empty row empties the container, and the next row starts it over.
   */
  lemma {:induction false} CollectIsTransposeAfterLastEmpty<T>(rows: seq<seq<T>>)
    ensures Collect(rows) == Transpose(RowsAfterLastEmpty(rows))
  {
    if rows == [] {
      return;
    }
    var init, last := rows[..|rows| - 1], rows[|rows| - 1];
    var prior := RowsAfterLastEmpty(init);
    CollectIsTransposeAfterLastEmpty(init);
    TransposeEmpty(prior);
    if last == [] {
      assert RowsAfterLastEmpty(rows) == [];
    } else if prior == [] {
      assert RowsAfterLastEmpty(rows) == [last];
      TransposeSingle(last);
    } else {
      assert RowsAfterLastEmpty(rows) == prior + [last];
      TransposeSnoc(prior, last);
    }
  }

  /** Every column of the collected result is as long as the number of rows since the last reset. */
  lemma {:induction false} CollectHeight<T>(rows: seq<seq<T>>)
    ensures Rectangular(Collect(rows), |RowsAfterLastEmpty(rows)|)
  {
    CollectIsTransposeAfterLastEmpty(rows);
    TransposeAt(RowsAfterLastEmpty(rows));
  }

  /** When no row but possibly the last is empty, the collector computes the transposition. */
  lemma {:induction false} CollectIsTranspose<T>(rows: seq<seq<T>>)
    requires forall i :: 0 <= i < |rows| - 1 ==> rows[i] != []
    ensures Collect(rows) == Transpose(rows)
  {
    CollectIsTransposeAfterLastEmpty(rows);
    TransposeAfterLastEmpty(rows);
  }

  /** Combining with an empty container, on either side, empties the result. */
  lemma CombinedWithEmpty<T>(p: seq<seq<T>>)
    ensures Combined(p, []) == [] && Combined([], p) == []
  {
  }

  /** The combiner is associative. */
  lemma {:induction false} CombinedAssociative<T>(p1: seq<seq<T>>, p2: seq<seq<T>>, p3: seq<seq<T>>)
    ensures Combined(Combined(p1, p2), p3) == Combined(p1, Combined(p2, p3))
  {
    var left, right := Combined(Combined(p1, p2), p3), Combined(p1, Combined(p2, p3));
    forall j | 0 <= j < |left|
      ensures left[j] == right[j]
    {
      assert left[j] == (p1[j] + p2[j]) + p3[j];
    }
  }

  /**
   * Two order-adjacent, non-empty partitions without empty rows, collected separately
   * and combined, give the transposition of all rows.
   */
  lemma {:induction false} CombineAdjacent<T>(a: seq<seq<T>>, b: seq<seq<T>>)
    requires |a| > 0 && |b| > 0 && !HasEmptyRow(a) && !HasEmptyRow(b)
    ensures Combined(Collect(a), Collect(b)) == Transpose(a + b)
  {
    CollectIsTranspose(a);
    CollectIsTranspose(b);
    TransposeAppend(a, b);
  }

  /** [[1, 2], [], [3, 4]] collects to [[3], [4]], not to the empty list. */
  lemma EmptyRowRestart()
    ensures Collect([[1, 2], [], [3, 4]]) == [[3], [4]]
    ensures Transpose([[1, 2], [], [3, 4]]) == []
  {
  }
}
