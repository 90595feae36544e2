/** The wide-to-long reshape of main.py:112-131: the id/value column split the
    user must choose, and the `DataFrame.melt` it feeds. */
module Reshape {
  import opened Selection

  /** The check of main.py:112: the number of leading identifier columns must
      leave at least one identifier column and at least one value column. */
  predicate AcceptsSplit(nId: int, columnCount: nat) {
    0 < nId < columnCount
  }

  /** Some answer is accepted exactly when the table has two columns or more;
      with a single column the prompt never ends. */
  lemma SplitPossibleIff(columnCount: nat)
    ensures (exists nId :: AcceptsSplit(nId, columnCount)) <==> columnCount >= 2
  {
    if columnCount >= 2 {
      assert AcceptsSplit(1, columnCount);
    }
  }

  /** main.py:119-120: `id_vars = columns[:n_id]`, `value_vars = columns[n_id:]`. */
  function Partition<C>(columns: seq<C>, nId: int): (p: (seq<C>, seq<C>))
    requires AcceptsSplit(nId, |columns|)
    ensures p.0 + p.1 == columns
    ensures |p.0| == nId && |p.1| == |columns| - nId
    ensures p.0 != [] && p.1 != []
  {
    (columns[..nId], columns[nId..])
  }

  /** The long-format row that data row `row` contributes for value column `j`:
      its first `k` cells, the label of column `j`, and its cell in column `j`. */
  function MeltRow<C>(header: seq<C>, row: seq<C>, k: nat, j: nat): seq<C>
    requires k <= j < |header| == |row|
  {
    row[..k] + [header[j], row[j]]
  }

  /** The rows melt produces for value column `j`: one per data row, in
      data-row order. */
  function ColumnRows<C>(t: Table<C>, k: nat, j: nat): seq<seq<C>>
    requires Rectangular(t) && k <= j < |t.header|
  {
    seq(|t.rows|, r requires 0 <= r < |t.rows| => MeltRow(t.header, t.rows[r], k, j))
  }

  /** The rows melt produces for value columns `j`, `j + 1`, ..., in column
      order: every row of one value column before any row of the next. */
  function MeltFrom<C>(t: Table<C>, k: nat, j: nat): seq<seq<C>>
    requires Rectangular(t) && k <= j <= |t.header|
    decreases |t.header| - j
  {
    if j == |t.header| then [] else ColumnRows(t, k, j) + MeltFrom(t, k, j + 1)
  }

  lemma {:induction false} MeltFromLength<C>(t: Table<C>, k: nat, j: nat)
    requires Rectangular(t) && k <= j <= |t.header|
    ensures |MeltFrom(t, k, j)| == |t.rows| * (|t.header| - j)
    decreases |t.header| - j
  {
    if j < |t.header| {
      MeltFromLength(t, k, j + 1);
      assert |t.rows| * (|t.header| - j) == |t.rows| + |t.rows| * (|t.header| - (j + 1));
    }
  }

  /** Position d * M + r of the rows for columns j.. is data row r melted on
      column j + d. */
  lemma {:induction false} MeltFromAt<C>(t: Table<C>, k: nat, j: nat, d: nat, r: nat)
    requires Rectangular(t) && k <= j && j + d < |t.header| && r < |t.rows|
    ensures d * |t.rows| + r < |MeltFrom(t, k, j)|
    ensures MeltFrom(t, k, j)[d * |t.rows| + r] == MeltRow(t.header, t.rows[r], k, j + d)
    decreases d
  {
    var m := |t.rows|;
    MeltFromLength(t, k, j + 1);
    var here, rest := ColumnRows(t, k, j), MeltFrom(t, k, j + 1);
    assert MeltFrom(t, k, j) == here + rest;
    if d == 0 {
      assert here[r] == MeltRow(t.header, t.rows[r], k, j);
    } else {
      MeltFromAt(t, k, j + 1, d - 1, r);
      MulSucc(d - 1, m);
      assert d * m + r == m + ((d - 1) * m + r);
    }
  }

  lemma MulSucc(d: nat, m: nat)
    ensures (d + 1) * m == m + d * m
  {
  }

  /** `df.melt(id_vars=header[:k], value_vars=header[k:], var_name=varName,
      value_name=valueName)` on a table without duplicate labels
      (main.py:126-131). */
  function Melt<C>(t: Table<C>, k: int, varName: C, valueName: C): (out: Table<C>)
    requires Rectangular(t) && AcceptsSplit(k, |t.header|)
    ensures out.header == Partition(t.header, k).0 + [varName, valueName]
    ensures |out.header| == k + 2
    ensures |out.rows| == |t.rows| * (|t.header| - k)
    ensures Rectangular(out)
  {
    MeltFromLength(t, k, k);
    var out := Table(t.header[..k] + [varName, valueName], MeltFrom(t, k, k));
    assert Rectangular(out) by {
      forall i | 0 <= i < |out.rows| ensures |out.rows[i]| == k + 2 {
        MeltPosition(t, k, i);
      }
    }
    out
  }

  /** Every output row, located by position: row i comes from value column
      k + i / M and data row i % M. */
  lemma MeltPosition<C>(t: Table<C>, k: nat, i: nat)
    requires Rectangular(t) && 0 < k < |t.header|
    requires i < |MeltFrom(t, k, k)|
    ensures |t.rows| > 0 && k + i / |t.rows| < |t.header|
    ensures MeltFrom(t, k, k)[i] == MeltRow(t.header, t.rows[i % |t.rows|], k, k + i / |t.rows|)
  {
    var m := |t.rows|;
    MeltFromLength(t, k, k);
    var n := |t.header| - k;
    PositiveFactor(m, n);
    var q, r := i / m, i % m;
    DivModSplit(i, m, n);
    MeltFromAt(t, k, k, q, r);
  }

  /** The melt result row by row: data row r melted on value column j sits at
      position (j - k) * M + r, M being the number of data rows. */
  lemma MeltRowAt<C>(t: Table<C>, k: int, varName: C, valueName: C, j: nat, r: nat)
    requires Rectangular(t) && AcceptsSplit(k, |t.header|)
    requires k <= j < |t.header| && r < |t.rows|
    ensures (j - k) * |t.rows| + r < |Melt(t, k, varName, valueName).rows|
    ensures Melt(t, k, varName, valueName).rows[(j - k) * |t.rows| + r]
         == t.rows[r][..k] + [t.header[j], t.rows[r][j]]
  {
    MeltFromAt(t, k, k, j - k, r);
  }

  lemma PositiveFactor(m: nat, n: nat)
    requires m * n > 0
    ensures m > 0
  {
  }

  /** Euclidean division of a position below m * n by m. */
  lemma DivModSplit(i: nat, m: nat, n: nat)
    requires 0 < m && i < m * n
    ensures i / m < n && i % m < m && (i / m) * m + i % m == i
  {
  }
}
