/** Dense real matrices as sequences of rows (row h = hour h), with the
    gonum operations the worker uses: outer product (Mul of a column by a
    row), SetCol, Sub, Sum over every cell, and per-row sums. */
module Matrices {
  import opened Sums

  type Matrix = seq<seq<real>>

  /** Every row has `cols` entries. */
  ghost predicate IsRect(m: Matrix, cols: nat) {
    forall h :: 0 <= h < |m| ==> |m[h]| == cols
  }

  /** The product of a column vector by a row vector. */
  function Outer(col: seq<real>, row: seq<real>): (m: Matrix)
    ensures |m| == |col| && IsRect(m, |row|)
    ensures forall h, i :: 0 <= h < |col| && 0 <= i < |row| ==> m[h][i] == col[h] * row[i]
  {
    seq(|col|, h requires 0 <= h < |col| => Scale(col[h], row))
  }

  /** The matrix whose i-th column is `cols[i]`. */
  function FromColumns(cols: seq<seq<real>>, rows: nat): (m: Matrix)
    requires forall i :: 0 <= i < |cols| ==> |cols[i]| == rows
    ensures |m| == rows && IsRect(m, |cols|)
    ensures forall h, i :: 0 <= h < rows && 0 <= i < |cols| ==> m[h][i] == cols[i][h]
  {
    seq(rows, h requires 0 <= h < rows => seq(|cols|, i requires 0 <= i < |cols| => cols[i][h]))
  }

  /** Cell-wise difference of two matrices of one shape. */
  function MatSub(a: Matrix, b: Matrix): (m: Matrix)
    requires |a| == |b|
    requires forall h :: 0 <= h < |a| ==> |a[h]| == |b[h]|
    ensures |m| == |a|
    ensures forall h :: 0 <= h < |a| ==> |m[h]| == |a[h]|
    ensures forall h, i :: 0 <= h < |a| && 0 <= i < |a[h]| ==> m[h][i] == a[h][i] - b[h][i]
  {
    seq(|a|, h requires 0 <= h < |a| => Sub(a[h], b[h]))
  }

  /** All cells in row-major order. */
  function Flatten(m: Matrix): seq<real> {
    if |m| == 0 then [] else m[0] + Flatten(m[1..])
  }

  /** The sum of every cell (gonum's mat.Sum). */
  function MatSum(m: Matrix): real {
    Sum(Flatten(m))
  }

  /** The sum of each row. */
  function RowSums(m: Matrix): (r: seq<real>)
    ensures |r| == |m|
    ensures forall h :: 0 <= h < |m| ==> r[h] == Sum(m[h])
  {
    seq(|m|, h requires 0 <= h < |m| => Sum(m[h]))
  }

  /** Column `i` of a rectangular matrix. */
  function Column(m: Matrix, cols: nat, i: nat): (c: seq<real>)
    requires IsRect(m, cols) && i < cols
    ensures |c| == |m|
    ensures forall h :: 0 <= h < |m| ==> c[h] == m[h][i]
  {
    seq(|m|, h requires 0 <= h < |m| => m[h][i])
  }

  /** The sum of each column of a rectangular matrix. */
  function ColSums(m: Matrix, cols: nat): (r: seq<real>)
    requires IsRect(m, cols)
    ensures |r| == cols
    ensures forall i :: 0 <= i < cols ==> r[i] == Sum(Column(m, cols, i))
  {
    seq(cols, i requires 0 <= i < cols => Sum(Column(m, cols, i)))
  }

  /** Summing every cell equals summing the row sums. */
  lemma {:induction false} MatSumIsTotalOfRowSums(m: Matrix)
    ensures MatSum(m) == Sum(RowSums(m))
  {
    if |m| > 0 {
      SumAppend(m[0], Flatten(m[1..]));
      assert RowSums(m)[1..] == RowSums(m[1..]);
      MatSumIsTotalOfRowSums(m[1..]);
    }
  }

  /** Column sums of a matrix are the first row plus the column sums of the rest. */
  lemma ColSumsSplit(m: Matrix, cols: nat)
    requires |m| > 0 && IsRect(m, cols)
    ensures ColSums(m, cols) == Add(m[0], ColSums(m[1..], cols))
  {
    forall i | 0 <= i < cols
      ensures ColSums(m, cols)[i] == Add(m[0], ColSums(m[1..], cols))[i]
    {
      assert Column(m, cols, i)[1..] == Column(m[1..], cols, i);
    }
  }

  /** Adding up a rectangular matrix row by row or column by column gives
      the same total. */
  lemma {:induction false} RowTotalIsColumnTotal(m: Matrix, cols: nat)
    requires IsRect(m, cols)
    ensures Sum(RowSums(m)) == Sum(ColSums(m, cols))
  {
    if |m| == 0 {
      SumZeros(ColSums(m, cols));
    } else {
      assert RowSums(m)[1..] == RowSums(m[1..]);
      RowTotalIsColumnTotal(m[1..], cols);
      ColSumsSplit(m, cols);
      SumAdd(m[0], ColSums(m[1..], cols));
    }
  }
}
