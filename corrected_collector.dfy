/**
 * The collector as the class documentation of org.electronicmango.zipper.Zipper
 * describes it: a container that remembers whether any row has been merged, so that an
 * empty row keeps the result empty instead of letting the next row start over, and a
 * combiner for which the supplier's empty container is neutral. It reuses the
 * electronicmango accumulator and combiner once a row has been seen.
 */
module CorrectedCollector {
  import opened Transposition
  import Mango = ElectronicMangoZipper

  /** A partial result: no row merged yet, or the columns of at least one row. */
  datatype Partial<T> = NoRows | Columns(cols: seq<seq<T>>)

  /**
   * The first row starts the columns as its own transposition; later rows keep
   * `min(|cols|, |row|)` columns and extend kept column `j` by `row[j]`.
   */
  function Accumulate<T>(p: Partial<T>, row: seq<T>): (r: Partial<T>)
    ensures r.Columns?
    ensures p.NoRows? ==> r.cols == Transpose([row])
    ensures p.Columns? ==>
      |r.cols| == Min(|p.cols|, |row|) && forall j :: 0 <= j < |r.cols| ==> r.cols[j] == p.cols[j] + [row[j]]
  {
    match p
    case NoRows => TransposeSingle(row); Columns(Mango.Singletons(row))
    case Columns(cols) => Columns(Mango.Inserted(cols, row, Mango.Append))
  }

  /**
   * Combines column by column: `min` of the two widths, column `j` being the first side's
   * column `j` followed by the second's; a side that has seen no row is neutral.
   */
  function Combine<T>(p: Partial<T>, q: Partial<T>): (r: Partial<T>)
    ensures p.NoRows? ==> r == q
    ensures q.NoRows? ==> r == p
    ensures p.Columns? && q.Columns? ==>
      r.Columns? && |r.cols| == Min(|p.cols|, |q.cols|)
      && forall j :: 0 <= j < |r.cols| ==> r.cols[j] == p.cols[j] + q.cols[j]
  {
    match (p, q)
    case (NoRows, _) => q
    case (_, NoRows) => p
    case (Columns(a), Columns(b)) => Columns(Mango.Combined(a, b))
  }

  /** The accumulator folded over `rows`, starting from no rows; it stays at no rows only for no rows. */
  function Fold<T>(rows: seq<seq<T>>): (r: Partial<T>)
    ensures r.NoRows? <==> rows == []
  {
    if rows == [] then NoRows else Accumulate(Fold(rows[..|rows| - 1]), rows[|rows| - 1])
  }

  /** The columns of a partial result (none when no row was merged). */
  function Finish<T>(p: Partial<T>): seq<seq<T>>
  {
    match p
    case NoRows => []
    case Columns(cols) => cols
  }

  /** Folding a non-empty list of rows yields the columns of its transposition. */
  lemma {:induction false} FoldIsTranspose<T>(rows: seq<seq<T>>)
    ensures Fold(rows) == if rows == [] then NoRows else Columns(Transpose(rows))
  {
    if rows == [] {
      return;
    }
    var init, last := rows[..|rows| - 1], rows[|rows| - 1];
    FoldIsTranspose(init);
    if init == [] {
      assert rows == [last];
      TransposeSingle(last);
    } else {
      assert rows == init + [last];
      TransposeSnoc(init, last);
    }
  }

  /** The corrected collector computes the transposition of all rows; any empty row gives []. */
  lemma {:induction false} CollectIsTranspose<T>(rows: seq<seq<T>>)
    ensures Finish(Fold(rows)) == Transpose(rows)
    ensures HasEmptyRow(rows) ==> Finish(Fold(rows)) == []
  {
    FoldIsTranspose(rows);
    TransposeEmpty(rows);
  }

  /** Combining the folds of two order-adjacent partitions is the fold of all rows, for any partitions. */
  lemma {:induction false} CombineFolds<T>(a: seq<seq<T>>, b: seq<seq<T>>)
    ensures Combine(Fold(a), Fold(b)) == Fold(a + b)
  {
    FoldIsTranspose(a);
    FoldIsTranspose(b);
    FoldIsTranspose(a + b);
    if a == [] {
      assert a + b == b;
    } else if b == [] {
      assert a + b == a;
    } else {
      TransposeAppend(a, b);
    }
  }

  /** The corrected combiner is associative. */
  lemma {:induction false} CombineAssociative<T>(p: Partial<T>, q: Partial<T>, r: Partial<T>)
    ensures Combine(Combine(p, q), r) == Combine(p, Combine(q, r))
  {
    if p.Columns? && q.Columns? && r.Columns? {
      Mango.CombinedAssociative(p.cols, q.cols, r.cols);
    }
  }
}
