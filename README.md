# java-zipper in Dafny

A model of the two versions of the Python-style `zip` in the java-zipper repository:
`org.electronicmango.zipper.Zipper` and `org.zipper.Zipper`. Zipping a list of rows gives
the list of columns: column `j` holds element `j` of every row, in row order, for every
`j` below the length of the shortest row.

- `Transposition` (transposition.dfy) is the reference meaning of zip. `Transpose` is
  defined column by column: the heads of all rows, then the transposition of the tails.
  `TransposeAt` proves its pointwise characterisation. The other lemmas say when it is
  empty, what a single row gives, and how it changes when one row, or a whole block of
  rows, is appended.
- `ElectronicMangoZipper` (electronicmango_zipper.dfy) models the electronicmango version.
  Its stream collector's container is the class `ZipTarget`, whose field `cols` holds the
  columns and is updated in place. The class has the supplier (its constructor),
  `Accumulate`, `InsertIntoSmallestSubset` and `Combine`. Both `zip` overloads are
  methods that run the supplier and the accumulator over the rows. They are proved
  against the fold `Collect`, and `Collect` is proved equal to the transposition of the
  rows after the last empty row.
- `OrgZipper` (org_zipper.dfy) models the org.zipper version. Its `zip` is a pure
  function, proved equal to `Transpose`. Its collector is again a class `ZipTarget`.
  The combiner is proved to treat the columns of its second argument as rows.
- `CorrectedCollector` (corrected_collector.dfy) is the collector the electronicmango
  class documentation describes. It remembers whether any row has been merged. An empty
  row therefore keeps the result empty, and the container of no rows is neutral for its
  combiner, as Java's `Collector` identity constraint requires. It is the corrected half
  of each finding below.
- `VersionComparison` (version_comparison.dfy) relates the two versions. Their
  accumulators agree, so their sequential collectors agree. Their combiners differ, and
  so do their `zip` functions.
- `Nullable` (nullable.dfy) models Java references that may be null. `None` is `null`,
  and `NullPointer` is the `NullPointerException` the zipper throws.

## Model

| member | source | states |
|---|---|---|
| `Transposition.MinLength` | src/main/java/org/zipper/Zipper.java:17 | The shortest row length: at most every row's length, and equal to some row's length |
| `Transposition.Transpose` | src/main/java/org/zipper/Zipper.java:17-20 | Every column of the transposition has one entry per row |
| `Transposition.TransposeAt` | src/main/java/org/zipper/Zipper.java:17-20 | The transposition has one column per position of the shortest row (none for no rows); column `j` has one entry per row, and entry `i` is element `j` of row `i` |
| `Transposition.TransposeEmpty` | src/main/java/org/electronicmango/zipper/Zipper.java:19 | The transposition is empty exactly when there are no rows or some row is empty |
| `Transposition.TransposeSingle` | src/main/java/org/zipper/Zipper.java:33-35 | A single row transposes into one singleton column per element, in order |
| `Transposition.TransposeSnoc` | src/main/java/org/electronicmango/zipper/Zipper.java:103-111 | Adding one row below non-empty rows keeps the first `min(width, row length)` columns and appends the row's element `j` to column `j` |
| `Transposition.MinLengthAppend` | src/main/java/org/electronicmango/zipper/Zipper.java:106 | The shortest row of `a + b` is the shorter of the shortest rows of `a` and of `b` |
| `Transposition.TransposeAppend` | src/main/java/org/electronicmango/zipper/Zipper.java:98-111 | Transposing `a + b` (both non-empty) keeps the first `min` columns of the two transpositions and concatenates them column by column |
| `Transposition.RowsAfterLastEmpty` | src/main/java/org/electronicmango/zipper/Zipper.java:91-94 | The rows after the last empty row: a suffix of the rows, with no empty row, preceded by an empty row unless it is all rows |
| `Transposition.TransposeAfterLastEmpty` | src/main/java/org/electronicmango/zipper/Zipper.java:89-96 | When no row except possibly the last is empty, the rows after the last empty row transpose like all rows |
| `ElectronicMangoZipper.Inserted` | src/main/java/org/electronicmango/zipper/Zipper.java:103-111 | `insertIntoSmallestSubset` as a value: `min(|target|, |other|)` columns, column `i` being `inserter(target[i], other[i])` |
| `ElectronicMangoZipper.Singletons` | src/main/java/org/electronicmango/zipper/Zipper.java:92 | `source.stream().map(List::of)`: one singleton column per element of the row, in order |
| `ElectronicMangoZipper.AccumulateStep` | src/main/java/org/electronicmango/zipper/Zipper.java:89-96 | On an empty container the accumulator makes one singleton column per element. On a non-empty one it keeps `min(columns, row length)` columns and appends `row[j]` to column `j` |
| `ElectronicMangoZipper.Combined` | src/main/java/org/electronicmango/zipper/Zipper.java:98-101 | The combiner keeps `min(|list1|, |list2|)` columns, and column `j` is `list1[j] + list2[j]` |
| `ElectronicMangoZipper.AccumulateAll` | src/main/java/org/electronicmango/zipper/Zipper.java:85-96 | The accumulator folded over the rows: no rows leave the container as it is; otherwise the result is empty exactly when the last row is empty; columns of one common height keep one common height |
| `ElectronicMangoZipper.Collect` | src/main/java/org/electronicmango/zipper/Zipper.java:85-96 | The sequential collection is empty exactly when there are no rows or the last row is empty, and all its columns have the same height |
| `ElectronicMangoZipper.ZipTarget.constructor` | src/main/java/org/electronicmango/zipper/Zipper.java:85-87 | The supplier `ArrayList::new` gives a container with no columns |
| `ElectronicMangoZipper.ZipTarget.InsertIntoSmallestSubset` | src/main/java/org/electronicmango/zipper/Zipper.java:103-111 | The container is cut to the shorter of the two lengths, and column `i` becomes `inserter(column i, other[i])`; nothing else changes |
| `ElectronicMangoZipper.ZipTarget.Accumulate` | src/main/java/org/electronicmango/zipper/Zipper.java:89-96 | A null row throws and leaves the container unchanged; otherwise the container becomes the accumulator step of its old columns and the row |
| `ElectronicMangoZipper.ZipTarget.Combine` | src/main/java/org/electronicmango/zipper/Zipper.java:98-101 | Returns this container, whose columns become its old columns combined column by column with the other's |
| `ElectronicMangoZipper.CollectChecked` | src/main/java/org/electronicmango/zipper/Zipper.java:85-96 | The sequential collection with the null check on each row: it fails exactly when some row is null, and otherwise returns the fold of the accumulator over the rows |
| `ElectronicMangoZipper.Zip` | src/main/java/org/electronicmango/zipper/Zipper.java:40-43 | Fails with a null pointer exactly when the list or some row is null; otherwise returns the collection of the rows |
| `ElectronicMangoZipper.ZipVarargs` | src/main/java/org/electronicmango/zipper/Zipper.java:62-66 | Fails exactly when the array or some row is null; otherwise returns the same collection as `Zip` of the same rows |
| `ElectronicMangoZipper.AccumulatePreservesHeight` | src/main/java/org/electronicmango/zipper/Zipper.java:89-111 | If every column has height `h`, after the accumulator every column has height `h + 1`, or 1 after a restart from an empty container |
| `ElectronicMangoZipper.CollectIsTransposeAfterLastEmpty` | src/main/java/org/electronicmango/zipper/Zipper.java:89-96 | Collecting the rows gives the transposition of the rows after the last empty row |
| `ElectronicMangoZipper.CollectHeight` | src/main/java/org/electronicmango/zipper/Zipper.java:91-110 | Every column of the collected result has one entry per row merged since the last reset |
| `ElectronicMangoZipper.CollectIsTranspose` | src/main/java/org/electronicmango/zipper/Zipper.java:40-43 | When no row except possibly the last is empty, `zip` computes the transposition |
| `ElectronicMangoZipper.CombinedWithEmpty` | src/main/java/org/electronicmango/zipper/Zipper.java:98-111 | Combining with an empty container, on either side, gives the empty list |
| `ElectronicMangoZipper.CombinedAssociative` | src/main/java/org/electronicmango/zipper/Zipper.java:98-111 | The combiner is associative |
| `ElectronicMangoZipper.CombineAdjacent` | src/main/java/org/electronicmango/zipper/Zipper.java:98-101 | For two adjacent, non-empty partitions without empty rows, combining their collections gives the transposition of all rows |
| `ElectronicMangoZipper.EmptyRowRestart` | src/main/java/org/electronicmango/zipper/Zipper.java:91-94 | `[[1, 2], [], [3, 4]]` collects to `[[3], [4]]`, while its transposition is empty |
| `OrgZipper.Zip` | src/main/java/org/zipper/Zipper.java:13-21 | Fails exactly when the list or some row is null; otherwise returns the transposition of the rows (`[]` for no rows) |
| `OrgZipper.ZipVarargs` | src/main/java/org/zipper/Zipper.java:23-26 | Fails exactly when the array or some row is null; otherwise returns the transposition, the same as `Zip` |
| `OrgZipper.AccumulateStep` | src/main/java/org/zipper/Zipper.java:32-42 | On an empty container the accumulator appends `zip` of the single row: one singleton column per element. On a non-empty one it keeps `min(columns, row length)` columns and appends `row[j]` to column `j` |
| `OrgZipper.AccumulateAll` | src/main/java/org/zipper/Zipper.java:32-42 | The accumulator folded over the rows: no rows leave the container as it is; otherwise the result is empty exactly when the last row is empty |
| `OrgZipper.Collect` | src/main/java/org/zipper/Zipper.java:28-42 | The sequential collection is empty exactly when there are no rows or the last row is empty |
| `OrgZipper.Combined` | src/main/java/org/zipper/Zipper.java:44-47 | No columns leave the first container as it is. On a non-empty first container and a second without empty columns, the combiner appends the columns of the second container's transposition, not its columns |
| `OrgZipper.ZipTarget.constructor` | src/main/java/org/zipper/Zipper.java:28-30 | The supplier gives a container with no columns |
| `OrgZipper.ZipTarget.Accumulate` | src/main/java/org/zipper/Zipper.java:32-42 | A null row throws and leaves the container unchanged; otherwise the container becomes the accumulator step of its old columns and the row |
| `OrgZipper.ZipTarget.Combine` | src/main/java/org/zipper/Zipper.java:44-47 | Returns this container, whose columns become the accumulator folded over the other container's columns, in order, starting from its old columns |
| `OrgZipper.ZipNoRows` | src/main/java/org/zipper/Zipper.java:14-16 | `zip` of no rows is the empty list |
| `OrgZipper.ZipShape` | src/main/java/org/zipper/Zipper.java:17-20 | `zip` of non-null rows has one column per position of the shortest row, each with one entry per row, entry `i` of column `j` being element `j` of row `i` |
| `OrgZipper.ZipEmptyRow` | src/main/java/org/zipper/Zipper.java:17-18 | `zip` gives the empty list whenever some row, in any position, is empty |
| `OrgZipper.CollectIsTransposeAfterLastEmpty` | src/main/java/org/zipper/Zipper.java:32-42 | Collecting the rows gives the transposition of the rows after the last empty row |
| `OrgZipper.CollectIsZip` | src/main/java/org/zipper/Zipper.java:32-42 | When no row except possibly the last is empty, the sequential collector returns what `zip` returns |
| `OrgZipper.AccumulateAllFromNonEmpty` | src/main/java/org/zipper/Zipper.java:37-41 | Accumulating non-empty rows into a non-empty container appends, to each kept column, the matching column of the rows' transposition |
| `OrgZipper.CombinedColumnsAsRows` | src/main/java/org/zipper/Zipper.java:44-47 | Combining `[[1], [2], [3]]` with `[[4], [5], [6]]` gives `[[1, 4, 5, 6]]` |
| `OrgZipper.CombinedAdjacentCounterexample` | src/main/java/org/zipper/Zipper.java:44-47 | Collecting `[[1, 2, 3]]` and `[[4, 5, 6]]` separately and combining them does not give their transposition `[[1, 4], [2, 5], [3, 6]]` |
| `OrgZipper.CollectorRestartsAfterEmptyRow` | src/main/java/org/zipper/Zipper.java:33-36 | On `[[1, 2], [], [3, 4]]` the collector gives `[[3], [4]]`, while `zip` gives `[]` |
| `CorrectedCollector.Accumulate` | src/main/java/org/electronicmango/zipper/Zipper.java:15-19 | The first row starts the columns as its own transposition; later rows keep `min(columns, row length)` columns and append `row[j]` to column `j` |
| `CorrectedCollector.Combine` | src/main/java/org/electronicmango/zipper/Zipper.java:98-101 | A side that has seen no row is neutral on either side; otherwise `min` of the two widths, column `j` being the first side's column `j` followed by the second's |
| `CorrectedCollector.Fold` | src/main/java/org/electronicmango/zipper/Zipper.java:15-19 | The corrected accumulator folded over the rows stays at "no rows" exactly when there are no rows |
| `CorrectedCollector.FoldIsTranspose` | src/main/java/org/electronicmango/zipper/Zipper.java:15-19 | Folding the corrected accumulator over a non-empty list of rows gives the columns of their transposition |
| `CorrectedCollector.CollectIsTranspose` | src/main/java/org/electronicmango/zipper/Zipper.java:15-19 | The corrected collector computes the transposition of all rows, and the empty list whenever any row is empty |
| `CorrectedCollector.CombineFolds` | src/main/java/org/electronicmango/zipper/Zipper.java:98-101 | Combining the folds of any two adjacent partitions, empty ones included, gives the fold of all rows |
| `CorrectedCollector.CombineAssociative` | src/main/java/org/electronicmango/zipper/Zipper.java:98-101 | The corrected combiner is associative |
| `VersionComparison.AccumulatorsAgree` | src/main/java/org/zipper/Zipper.java:32-42 | The org.zipper accumulator computes the same container as the electronicmango one for every container and non-null row |
| `VersionComparison.AccumulateAllAgree` | src/main/java/org/zipper/Zipper.java:32-42 | Folding either accumulator over the same rows from the same container gives the same result |
| `VersionComparison.CollectorsAgree` | src/main/java/org/zipper/Zipper.java:28-30 | The two sequential collectors agree on every list of rows |
| `VersionComparison.ZipsAgreeWithoutEarlyEmptyRows` | src/main/java/org/zipper/Zipper.java:13-21 | When no row except possibly the last is empty, the two `zip` functions agree |
| `VersionComparison.ZipsDisagree` | src/main/java/org/zipper/Zipper.java:13-21 | On `[[1, 2], [], [3, 4]]`, org.zipper's `zip` does not return electronicmango's collected result |
| `VersionComparison.CombinersDisagree` | src/main/java/org/zipper/Zipper.java:44-47 | The electronicmango combiner gives `[[1, 4], [2, 5], [3, 6]]` on `[[1], [2], [3]]` and `[[4], [5], [6]]`, and the org.zipper combiner gives something else |

## Left out

- Stream plumbing (`Collector.of`, `stream()`, `peek`, `IntStream`, `Collectors.toList`) is modelled only as the supplier, the accumulator, the combiner and explicit left folds. How a parallel stream splits the rows and orders its reductions is concurrency and scheduling, so it is not modelled. The combiners are related to the row order through two adjacent partitions.
- Null elements inside a row are not modelled, because elements are opaque. In the electronicmango version, `List::of` throws on a null element of the row that starts the container.
- When a null row throws part-way through a collection, the Java container already holds some columns but is then discarded. `ElectronicMangoZipper.CollectChecked` returns only the error.
- Results are values (`seq`), so each result is independent of the input rows. Java's freshness and mutability of the returned lists are not modelled: `subList` views, wildcards, `@SafeVarargs` and the private constructor.
- `OrgZipper.ZipTarget.Combine`: requires the two containers to be distinct unless the container is empty. In Java, a non-empty container combined with itself throws `ConcurrentModificationException` from `forEach` after the first column, which the model does not capture. An empty container combined with itself is returned unchanged, and the model allows that call. Parallel streams never combine a container with itself.
- List sizes are unbounded integers. Java's `int` sizes never overflow here because the code does no arithmetic on them besides `Math.min`.

## Findings

| source | as written | input that shows it | evidently intended | confidence | as-written member | corrected member |
|---|---|---|---|---|---|---|
| src/main/java/org/electronicmango/zipper/Zipper.java:91-94 | A container emptied by an empty row counts as "no row yet", so the next row starts the columns over | `zip([[1, 2], [], [3, 4]])` gives `[[3], [4]]` | The class comment (line 19) says any empty inner list gives an empty result: `[]` | high, not executed | `ElectronicMangoZipper.EmptyRowRestart` | `CorrectedCollector.CollectIsTranspose` |
| src/main/java/org/zipper/Zipper.java:33-36 | The same restart: the collector disagrees with this class's own `zip` | collecting `[[1, 2], [], [3, 4]]` gives `[[3], [4]]`; `zip` gives `[]` | The collector returns what `zip` returns: `[]` | high, not executed | `OrgZipper.CollectorRestartsAfterEmptyRow` | `CorrectedCollector.CollectIsTranspose` |
| src/main/java/org/zipper/Zipper.java:44-47 | The combiner accumulates every column of the second container as if it were a row | combining the collections `[[1], [2], [3]]` of `[[1, 2, 3]]` and `[[4], [5], [6]]` of `[[4, 5, 6]]` gives `[[1, 4, 5, 6]]` | Column-by-column concatenation: `[[1, 4], [2, 5], [3, 6]]`, the transposition of both rows | high, not executed | `OrgZipper.CombinedAdjacentCounterexample` | `CorrectedCollector.CombineFolds` |
| src/main/java/org/electronicmango/zipper/Zipper.java:98-111 | The combiner truncates to the shorter container, so the supplier's empty container is absorbing rather than neutral | combining the collection `[[1], [2]]` of `[[1, 2]]` with the collection `[]` of an empty partition (a parallel stream after a `filter`) gives `[]` | Java's `Collector` identity constraint: combining with the supplier's empty container returns the other container unchanged, here `[[1], [2]]` | high, not executed | `ElectronicMangoZipper.CombinedWithEmpty` | `CorrectedCollector.Combine` |
