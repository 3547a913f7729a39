/**
 * The reference meaning of "zip": the transposition of a list of rows, truncated to
 * the shortest row. It is defined column by column (the heads of all rows, then the
 * transposition of their tails), independently of either implementation, and its
 * pointwise characterisation is proved once here.
 */
module Transposition {

  function Min(a: int, b: int): int
  {
    if a <= b then a else b
  }

  /** The length of the shortest row (`Collections.min` by `List::size`). */
  function MinLength<T>(rows: seq<seq<T>>): (m: nat)
    requires |rows| > 0
    ensures forall i :: 0 <= i < |rows| ==> m <= |rows[i]|
    ensures exists i :: 0 <= i < |rows| && m == |rows[i]|
  {
    if |rows| == 1 then |rows[0]|
    else
      var rest := MinLength(rows[1..]);
      assert forall i :: 1 <= i < |rows| ==> rows[1..][i - 1] == rows[i];
      if |rows[0]| <= rest then |rows[0]| else rest
  }

  /** The number of columns of the transposition: 0 for no rows, else the shortest row length. */
  function Width<T>(rows: seq<seq<T>>): nat
  {
    if |rows| == 0 then 0 else MinLength(rows)
  }

  /** Some row is empty. */
  predicate HasEmptyRow<T>(rows: seq<seq<T>>)
  {
    exists i :: 0 <= i < |rows| && |rows[i]| == 0
  }

  /** The first element of every row, in row order. */
  function Heads<T>(rows: seq<seq<T>>): seq<T>
    requires !HasEmptyRow(rows)
  {
    seq(|rows|, i requires 0 <= i < |rows| => rows[i][0])
  }

  /** Every row without its first element. */
  function Tails<T>(rows: seq<seq<T>>): seq<seq<T>>
    requires !HasEmptyRow(rows)
  {
    seq(|rows|, i requires 0 <= i < |rows| => rows[i][1..])
  }

  /**
   * The transposition: column `j` is element `j` of every row, for `j` below the shortest
   * row length; every column holds one element per row.
   */
  function Transpose<T>(rows: seq<seq<T>>): (cols: seq<seq<T>>)
    ensures forall j :: 0 <= j < |cols| ==> |cols[j]| == |rows|
    decreases if |rows| == 0 then 0 else |rows[0]|
  {
    if |rows| == 0 || HasEmptyRow(rows) then []
    else [Heads(rows)] + Transpose(Tails(rows))
  }

  /** Column `j` of `rows`, for `j` below the shortest row length. */
  function Column<T>(rows: seq<seq<T>>, j: nat): (col: seq<T>)
    requires j < Width(rows)
    ensures |col| == |rows|
  {
    seq(|rows|, i requires 0 <= i < |rows| => rows[i][j])
  }

  lemma {:induction false} MinLengthOfTails<T>(rows: seq<seq<T>>)
    requires |rows| > 0 && !HasEmptyRow(rows)
    ensures MinLength(Tails(rows)) == MinLength(rows) - 1
  {
    var m, t := MinLength(rows), Tails(rows);
    var k :| 0 <= k < |rows| && m == |rows[k]|;
    var k' :| 0 <= k' < |t| && MinLength(t) == |t[k']|;
    assert MinLength(t) <= |t[k]|;
    assert m <= |rows[k']|;
  }

  /**
   * The characterisation of the transposition: as many columns as the shortest row is
   * long (none for no rows), each as long as there are rows, column `j` holding element
   * `j` of row `i` at position `i`.
   */
  lemma {:induction false} TransposeAt<T>(rows: seq<seq<T>>)
    ensures |Transpose(rows)| == Width(rows)
    ensures forall j :: 0 <= j < Width(rows) ==> Transpose(rows)[j] == Column(rows, j)
    decreases if |rows| == 0 then 0 else |rows[0]|
  {
    if |rows| == 0 {
    } else if HasEmptyRow(rows) {
      var k :| 0 <= k < |rows| && |rows[k]| == 0;
      assert MinLength(rows) <= |rows[k]|;
    } else {
      var t := Tails(rows);
      TransposeAt(t);
      MinLengthOfTails(rows);
      forall j | 0 <= j < Width(rows)
        ensures Transpose(rows)[j] == Column(rows, j)
      {
        if j > 0 {
          assert Transpose(rows)[j] == Transpose(t)[j - 1];
          assert Column(t, j - 1) == Column(rows, j);
        }
      }
    }
  }

  /** The transposition is empty exactly when there are no rows or some row is empty. */
  lemma TransposeEmpty<T>(rows: seq<seq<T>>)
    ensures Transpose(rows) == [] <==> (|rows| == 0 || HasEmptyRow(rows))
  {
  }

  /** A single row transposes into one singleton column per element. */
  lemma {:induction false} TransposeSingle<T>(row: seq<T>)
    ensures Transpose([row]) == seq(|row|, j requires 0 <= j < |row| => [row[j]])
  {
    TransposeAt([row]);
    assert MinLength([row]) == |row|;
    forall j | 0 <= j < |row|
      ensures Transpose([row])[j] == [row[j]]
    {
      assert Column([row], j) == [row[j]];
    }
  }

  /**
   * Adding a row below a non-empty list of rows keeps the first `min(width, |row|)`
   * columns and extends column `j` by `row[j]`.
   */
  lemma {:induction false} TransposeSnoc<T>(rows: seq<seq<T>>, row: seq<T>)
    requires |rows| > 0
    ensures var t := Transpose(rows);
      Transpose(rows + [row]) == seq(Min(|t|, |row|), j requires 0 <= j < Min(|t|, |row|) => t[j] + [row[j]])
  {
    var all := rows + [row];
    TransposeAt(rows);
    TransposeAt(all);
    var k :| 0 <= k < |all| && MinLength(all) == |all[k]|;
    var k' :| 0 <= k' < |rows| && MinLength(rows) == |rows[k']|;
    assert MinLength(all) <= |all[k']| && MinLength(all) <= |all[|rows|]|;
    assert MinLength(all) == Min(MinLength(rows), |row|);
    var t := Transpose(rows);
    forall j | 0 <= j < Min(|t|, |row|)
      ensures Transpose(all)[j] == t[j] + [row[j]]
    {
      assert Column(all, j) == Column(rows, j) + [row[j]];
    }
  }

  /** The shortest row of `a + b` is the shorter of the shortest rows of `a` and of `b`. */
  lemma {:induction false} MinLengthAppend<T>(a: seq<seq<T>>, b: seq<seq<T>>)
    requires |a| > 0 && |b| > 0
    ensures MinLength(a + b) == Min(MinLength(a), MinLength(b))
  {
    var all := a + b;
    var k :| 0 <= k < |all| && MinLength(all) == |all[k]|;
    var ka :| 0 <= ka < |a| && MinLength(a) == |a[ka]|;
    var kb :| 0 <= kb < |b| && MinLength(b) == |b[kb]|;
    assert MinLength(all) <= |all[ka]| && MinLength(all) <= |all[|a| + kb]|;
    if k < |a| {
      assert MinLength(a) <= |a[k]|;
    } else {
      assert MinLength(b) <= |b[k - |a|]|;
    }
  }

  /**
   * Transposing `a + b` (both non-empty) keeps the first `min` columns of the two
   * transpositions and concatenates column `j` of `a`'s with column `j` of `b`'s.
   */
  lemma {:induction false} TransposeAppend<T>(a: seq<seq<T>>, b: seq<seq<T>>)
    requires |a| > 0 && |b| > 0
    ensures var ta, tb := Transpose(a), Transpose(b);
      Transpose(a + b) == seq(Min(|ta|, |tb|), j requires 0 <= j < Min(|ta|, |tb|) => ta[j] + tb[j])
  {
    var all := a + b;
    TransposeAt(a);
    TransposeAt(b);
    TransposeAt(all);
    MinLengthAppend(a, b);
    var ta, tb := Transpose(a), Transpose(b);
    forall j | 0 <= j < Min(|ta|, |tb|)
      ensures Transpose(all)[j] == ta[j] + tb[j]
    {
      ColumnAppend(a, b, j);
    }
  }

  lemma ColumnAppend<T>(a: seq<seq<T>>, b: seq<seq<T>>, j: nat)
    requires |a| > 0 && |b| > 0 && j < Width(a) && j < Width(b) && j < Width(a + b)
    ensures Column(a + b, j) == Column(a, j) + Column(b, j)
  {
  }

  /** The rows that follow the last empty row (all rows when none is empty). */
  function RowsAfterLastEmpty<T>(rows: seq<seq<T>>): (suffix: seq<seq<T>>)
    ensures |suffix| <= |rows| && suffix == rows[|rows| - |suffix|..]
    ensures !HasEmptyRow(suffix)
    ensures |suffix| < |rows| ==> rows[|rows| - |suffix| - 1] == []
  {
    if |rows| == 0 then []
    else if rows[|rows| - 1] == [] then []
    else
      var prefix := RowsAfterLastEmpty(rows[..|rows| - 1]);
      assert rows[..|rows| - 1][|rows| - 1 - |prefix|..] == rows[|rows| - 1 - |prefix|..|rows| - 1];
      prefix + [rows[|rows| - 1]]
  }

  /** With no empty row (except possibly the last) the suffix after the last empty row transposes like all rows. */
  lemma TransposeAfterLastEmpty<T>(rows: seq<seq<T>>)
    requires forall i :: 0 <= i < |rows| - 1 ==> rows[i] != []
    ensures Transpose(RowsAfterLastEmpty(rows)) == Transpose(rows)
  {
  }
}
