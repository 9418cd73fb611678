/**
 * Reading a list of columns back into one sequence, row by row: element `i`
 * of column 0, 1, 2, ..., then element `i + 1` of each, skipping columns
 * that are already exhausted. The engine does this with the three layout
 * columns (photoDistribution.ts:170-179) and with the five aspect groups
 * (photoDistribution.ts:201-210).
 */
module Masonry {

  import opened Seqs

  /** `Math.max(...cols.map(col => col.length))`, with 0 for no columns. */
  function MaxLength<T>(cols: seq<seq<T>>): (n: nat)
    ensures forall c :: 0 <= c < |cols| ==> |cols[c]| <= n
    ensures cols != [] ==> exists c :: 0 <= c < |cols| && |cols[c]| == n
    ensures cols == [] ==> n == 0
  {
    if cols == [] then 0
    else
      var m := MaxLength(cols[..|cols| - 1]);
      var last := |cols[|cols| - 1]|;
      if m < last then last else m
  }

  /** Row `i` read across the first `c` columns. */
  function RowPrefix<T>(cols: seq<seq<T>>, i: nat, c: nat): seq<T>
    requires c <= |cols|
  {
    if c == 0 then []
    else RowPrefix(cols, i, c - 1) + (if i < |cols[c - 1]| then [cols[c - 1][i]] else [])
  }

  /** Row `i`: the `i`-th element of every column long enough to have one, in column order. */
  function Row<T>(cols: seq<seq<T>>, i: nat): seq<T> {
    RowPrefix(cols, i, |cols|)
  }

  /** Rows `0 .. n - 1`, one after the other. */
  function Rows<T>(cols: seq<seq<T>>, n: nat): seq<T> {
    if n == 0 then [] else Rows(cols, n - 1) + Row(cols, n - 1)
  }

  /** The row-major reading of the columns. */
  function RowMajor<T>(cols: seq<seq<T>>): seq<T> {
    Rows(cols, MaxLength(cols))
  }

  /** The multiset union of the first `c` columns. */
  function ColumnsUpTo<T>(cols: seq<seq<T>>, c: nat): multiset<T>
    requires c <= |cols|
  {
    if c == 0 then multiset{} else ColumnsUpTo(cols, c - 1) + multiset(cols[c - 1])
  }

  /** Everything held in the columns, with multiplicities. */
  function ColumnSum<T>(cols: seq<seq<T>>): multiset<T> {
    ColumnsUpTo(cols, |cols|)
  }

  function Min(a: nat, b: nat): nat {
    if a < b then a else b
  }

  /**
   * The nested loops of the source: for each row below the longest column's
   * length, for each column, push the column's element at that row if it has one.
   */
  method FlattenRowMajor<T>(cols: seq<seq<T>>) returns (result: seq<T>)
    ensures result == RowMajor(cols)
  {
    var maxLength := MaxLength(cols);
    result := [];
    var i := 0;
    while i < maxLength
      invariant 0 <= i <= maxLength
      invariant result == Rows(cols, i)
    {
      var col := 0;
      while col < |cols|
        invariant 0 <= col <= |cols|
        invariant result == Rows(cols, i) + RowPrefix(cols, i, col)
      {
        if i < |cols[col]| {
          result := result + [cols[col][i]];
        }
        col := col + 1;
      }
      i := i + 1;
    }
  }

  /** 1 when column `col` has `x` at row `i`, else 0. */
  ghost function CellCount<T>(col: seq<T>, i: nat, x: T): nat {
    if i < |col| && col[i] == x then 1 else 0
  }

  /** Occurrences of `x` in row `i` of the first `c` columns. */
  ghost function RowCount<T>(cols: seq<seq<T>>, i: nat, c: nat, x: T): nat
    requires c <= |cols|
  {
    if c == 0 then 0 else RowCount(cols, i, c - 1, x) + CellCount(cols[c - 1], i, x)
  }

  /** Occurrences of `x` in rows `0 .. n - 1`. */
  ghost function RowsCount<T>(cols: seq<seq<T>>, n: nat, x: T): nat {
    if n == 0 then 0 else RowsCount(cols, n - 1, x) + RowCount(cols, n - 1, |cols|, x)
  }

  /** Occurrences of `x` among the first `n` rows of one column. */
  ghost function ColumnCount<T>(col: seq<T>, n: nat, x: T): nat {
    if n == 0 then 0 else ColumnCount(col, n - 1, x) + CellCount(col, n - 1, x)
  }

  /** Occurrences of `x` among the first `n` rows of the first `c` columns, column by column. */
  ghost function ColumnsCount<T>(cols: seq<seq<T>>, n: nat, c: nat, x: T): nat
    requires c <= |cols|
  {
    if c == 0 then 0 else ColumnsCount(cols, n, c - 1, x) + ColumnCount(cols[c - 1], n, x)
  }

  lemma {:induction false} RowPrefixCount<T>(cols: seq<seq<T>>, i: nat, c: nat, x: T)
    requires c <= |cols|
    ensures Count(RowPrefix(cols, i, c), x) == RowCount(cols, i, c, x)
  {
    if c > 0 {
      RowPrefixCount(cols, i, c - 1, x);
      var cell := if i < |cols[c - 1]| then [cols[c - 1][i]] else [];
      CountAppend(RowPrefix(cols, i, c - 1), cell, x);
      if i < |cols[c - 1]| {
        assert cell[..0] == [];
      }
    }
  }

  lemma {:induction false} RowsCountIs<T>(cols: seq<seq<T>>, n: nat, x: T)
    ensures Count(Rows(cols, n), x) == RowsCount(cols, n, x)
  {
    if n > 0 {
      RowsCountIs(cols, n - 1, x);
      RowPrefixCount(cols, n - 1, |cols|, x);
      CountAppend(Rows(cols, n - 1), Row(cols, n - 1), x);
    }
  }

  /** Extending every column's window by one row adds that row. */
  lemma {:induction false} ColumnsCountStep<T>(cols: seq<seq<T>>, n: nat, c: nat, x: T)
    requires c <= |cols| && n > 0
    ensures ColumnsCount(cols, n, c, x) == ColumnsCount(cols, n - 1, c, x) + RowCount(cols, n - 1, c, x)
  {
    if c > 0 {
      ColumnsCountStep(cols, n, c - 1, x);
    }
  }

  lemma {:induction false} ColumnsCountEmpty<T>(cols: seq<seq<T>>, c: nat, x: T)
    requires c <= |cols|
    ensures ColumnsCount(cols, 0, c, x) == 0
  {
    if c > 0 {
      ColumnsCountEmpty(cols, c - 1, x);
    }
  }

  /** Counting row by row and counting column by column agree. */
  lemma {:induction false} RowsCountColumnwise<T>(cols: seq<seq<T>>, n: nat, x: T)
    ensures RowsCount(cols, n, x) == ColumnsCount(cols, n, |cols|, x)
  {
    if n > 0 {
      RowsCountColumnwise(cols, n - 1, x);
      ColumnsCountStep(cols, n, |cols|, x);
    } else {
      ColumnsCountEmpty(cols, |cols|, x);
    }
  }

  lemma {:induction false} ColumnCountPrefix<T>(col: seq<T>, n: nat, x: T)
    requires n <= |col|
    ensures ColumnCount(col, n, x) == Count(col[..n], x)
  {
    if n > 0 {
      ColumnCountPrefix(col, n - 1, x);
      assert col[..n][..n - 1] == col[..n - 1];
    }
  }

  lemma {:induction false} ColumnCountBeyond<T>(col: seq<T>, n: nat, x: T)
    requires |col| <= n
    ensures ColumnCount(col, n, x) == ColumnCount(col, |col|, x)
  {
    if n > |col| {
      ColumnCountBeyond(col, n - 1, x);
    }
  }

  /** Once `n` covers every column, the window is the whole of each column. */
  lemma {:induction false} ColumnsCountWhole<T>(cols: seq<seq<T>>, n: nat, c: nat, x: T)
    requires c <= |cols| && forall j :: 0 <= j < c ==> |cols[j]| <= n
    ensures ColumnsCount(cols, n, c, x) == ColumnsUpTo(cols, c)[x]
  {
    if c > 0 {
      var col := cols[c - 1];
      ColumnsCountWhole(cols, n, c - 1, x);
      ColumnCountBeyond(col, n, x);
      ColumnCountPrefix(col, |col|, x);
      assert col[..|col|] == col;
      CountIsMultiplicity(col, x);
    }
  }

  /** Reading row by row loses and adds nothing: the result holds exactly what the columns hold. */
  lemma RowMajorPermutation<T>(cols: seq<seq<T>>)
    ensures multiset(RowMajor(cols)) == ColumnSum(cols)
  {
    var n := MaxLength(cols);
    var rows, columns := multiset(Rows(cols, n)), ColumnsUpTo(cols, |cols|);
    forall x
      ensures rows[x] == columns[x]
    {
      CountIsMultiplicity(Rows(cols, n), x);
      RowsCountIs(cols, n, x);
      RowsCountColumnwise(cols, n, x);
      ColumnsCountWhole(cols, n, |cols|, x);
    }
    MultisetExtensionality(rows, columns);
  }

  /** Appending to one column adds exactly that element to what the columns hold. */
  lemma {:induction false} ColumnsUpToAppend<T>(cols: seq<seq<T>>, k: nat, x: T, c: nat)
    requires k < |cols| && c <= |cols|
    ensures ColumnsUpTo(cols[k := cols[k] + [x]], c) == ColumnsUpTo(cols, c) + (if k < c then multiset{x} else multiset{})
  {
    if c > 0 {
      ColumnsUpToAppend(cols, k, x, c - 1);
      var updated := cols[k := cols[k] + [x]];
      assert ColumnsUpTo(updated, c) == ColumnsUpTo(updated, c - 1) + multiset(updated[c - 1]);
      if c - 1 == k {
        assert multiset(updated[c - 1]) == multiset(cols[c - 1]) + multiset{x};
      } else {
        assert updated[c - 1] == cols[c - 1];
      }
    }
  }

  /** When every one of the first `c` columns reaches row `i`, that row is their `i`-th elements. */
  lemma {:induction false} FullRowPrefix<T>(cols: seq<seq<T>>, i: nat, c: nat)
    requires c <= |cols|
    requires forall j :: 0 <= j < c ==> i < |cols[j]|
    ensures |RowPrefix(cols, i, c)| == c
    ensures forall j :: 0 <= j < c ==> RowPrefix(cols, i, c)[j] == cols[j][i]
  {
    if c > 0 {
      FullRowPrefix(cols, i, c - 1);
    }
  }

  /**
   * While every column reaches row `n - 1`, the first `n` rows are the
   * row-major order of a grid: row `i` of column `j` lands at position
   * `|cols| * i + j`.
   */
  lemma {:induction false} UniformRows<T>(cols: seq<seq<T>>, n: nat, i: nat, j: nat)
    requires forall c :: 0 <= c < |cols| ==> n <= |cols[c]|
    requires i < n && j < |cols|
    ensures |Rows(cols, n)| == |cols| * n
    ensures |cols| * i + j < |Rows(cols, n)| && Rows(cols, n)[|cols| * i + j] == cols[j][i]
  {
    var w := |cols|;
    RowsLength(cols, n);
    if i == n - 1 {
      RowsLength(cols, n - 1);
      FullRowPrefix(cols, i, w);
      assert w * i + j == w * (n - 1) + j;
    } else {
      UniformRows(cols, n - 1, i, j);
      MulStep(w, i, n - 1);
    }
  }

  lemma {:induction false} MulStep(w: nat, a: nat, b: nat)
    requires a < b
    ensures w * a + w <= w * b
    decreases b - a
  {
    assert w * (a + 1) == w * a + w;
    if a + 1 < b {
      MulStep(w, a + 1, b);
    }
  }

  lemma {:induction false} RowsLength<T>(cols: seq<seq<T>>, n: nat)
    requires forall c :: 0 <= c < |cols| ==> n <= |cols[c]|
    ensures |Rows(cols, n)| == |cols| * n
  {
    if n > 0 {
      RowsLength(cols, n - 1);
      FullRowPrefix(cols, n - 1, |cols|);
      assert |cols| * n == |cols| * (n - 1) + |cols|;
    }
  }

  /** With columns of equal length `n`, the whole reading is that grid, row by row. */
  lemma UniformRowMajor<T>(cols: seq<seq<T>>, n: nat, i: nat, j: nat)
    requires cols != [] && forall c :: 0 <= c < |cols| ==> |cols[c]| == n
    requires i < n && j < |cols|
    ensures |RowMajor(cols)| == |cols| * n
    ensures |cols| * i + j < |RowMajor(cols)| && RowMajor(cols)[|cols| * i + j] == cols[j][i]
  {
    assert MaxLength(cols) == n;
    UniformRows(cols, n, i, j);
  }

  /** The reading starts with row 0. */
  lemma {:induction false} RowMajorStartsWithFirstRow<T>(cols: seq<seq<T>>)
    requires MaxLength(cols) > 0
    ensures Row(cols, 0) <= RowMajor(cols)
  {
    RowsExtend(cols, 1, MaxLength(cols));
  }

  lemma {:induction false} RowsExtend<T>(cols: seq<seq<T>>, m: nat, n: nat)
    requires m <= n
    ensures Rows(cols, m) <= Rows(cols, n)
    decreases n
  {
    if m < n {
      RowsExtend(cols, m, n - 1);
    }
  }

  /** Where row `i` of column `c` lands in the reading: after rows `0 .. i - 1` and the earlier columns' row `i`. */
  function Position<T>(cols: seq<seq<T>>, i: nat, c: nat): nat
    requires c <= |cols|
  {
    |Rows(cols, i)| + |RowPrefix(cols, i, c)|
  }

  lemma {:induction false} RowPrefixExtend<T>(cols: seq<seq<T>>, i: nat, c: nat, d: nat)
    requires c <= d <= |cols|
    ensures RowPrefix(cols, i, c) <= RowPrefix(cols, i, d)
    decreases d
  {
    if c < d {
      RowPrefixExtend(cols, i, c, d - 1);
    }
  }

  /** Element `i` of column `c` sits in the reading at `Position(cols, i, c)`, inside the first `i + 1` rows. */
  lemma {:induction false} PositionHolds<T>(cols: seq<seq<T>>, i: nat, c: nat)
    requires c < |cols| && i < |cols[c]|
    ensures Position(cols, i, c) < |Rows(cols, i + 1)| <= |RowMajor(cols)|
    ensures RowMajor(cols)[Position(cols, i, c)] == cols[c][i]
  {
    var upTo := RowPrefix(cols, i, c + 1);
    assert upTo == RowPrefix(cols, i, c) + [cols[c][i]];
    RowPrefixExtend(cols, i, c + 1, |cols|);
    assert Row(cols, i)[|RowPrefix(cols, i, c)|] == cols[c][i];
    RowsExtend(cols, i + 1, MaxLength(cols));
    assert Rows(cols, i + 1) == Rows(cols, i) + Row(cols, i);
  }

  /**
   * Reading row by row keeps every column's own order: each column's
   * elements appear in the reading at strictly increasing positions, so
   * each layout column is a subsequence of the flattened result.
   */
  lemma ColumnOrderKept<T>(cols: seq<seq<T>>, c: nat, i: nat, j: nat)
    requires c < |cols| && i < j < |cols[c]|
    ensures Position(cols, i, c) < Position(cols, j, c) < |RowMajor(cols)|
    ensures RowMajor(cols)[Position(cols, i, c)] == cols[c][i]
    ensures RowMajor(cols)[Position(cols, j, c)] == cols[c][j]
  {
    PositionHolds(cols, i, c);
    PositionHolds(cols, j, c);
    RowsExtend(cols, i + 1, j);
    assert |Rows(cols, i + 1)| <= |Rows(cols, j)| <= Position(cols, j, c);
  }
}
