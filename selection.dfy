/** Turning the value of the user's Excel selection into a table
    (main.py:87-101): nothing selected is an error, a single cell becomes a
    1x1 grid, and the first row of the grid is the header. */
module Selection {

  /** What `excel.Selection.Value` hands back when it is not `None`: one cell
      on its own, or a tuple of rows, each a tuple of cells. */
  datatype SelectionValue<C> = Scalar(cell: C) | Grid(rows: seq<seq<C>>)

  /** A table as the DataFrame holds it: the column labels and the data rows. */
  datatype Table<C> = Table(header: seq<C>, rows: seq<seq<C>>)

  datatype Failure =
    | NothingSelected   // `values is None`, also for a single empty cell (main.py:87-90)
    | NoFirstRow        // `values[0]` on an empty tuple raises IndexError (main.py:93)

  datatype Result<T> = Ok(value: T) | Err(error: Failure)

  datatype Option<T> = None | Some(value: T)

  /** Every data row has one cell per column. */
  predicate Rectangular<C>(t: Table<C>) {
    forall r :: 0 <= r < |t.rows| ==> |t.rows[r]| == |t.header|
  }

  /** Every row of a grid has the width of its first row. */
  predicate RectangularGrid<C>(g: seq<seq<C>>) {
    forall r :: 0 <= r < |g| ==> |g[r]| == |g[0]|
  }

  /** The wrapping of main.py:93-94: a lone cell becomes a one-row,
      one-column grid, a grid stays as it is. */
  function Normalize<C>(v: SelectionValue<C>): (g: seq<seq<C>>)
    ensures v.Scalar? ==> g == [[v.cell]] && |g| == 1 && |g[0]| == 1
    ensures v.Grid? ==> g == v.rows
  {
    match v
    case Scalar(c) => [[c]]
    case Grid(rows) => rows
  }

  /** main.py:97-98: row 0 is the header, the remaining rows are the data. */
  function SplitHeader<C>(g: seq<seq<C>>): (t: Table<C>)
    requires |g| > 0
    ensures [t.header] + t.rows == g
    ensures |t.rows| == |g| - 1
    ensures RectangularGrid(g) ==> Rectangular(t)
  {
    Table(g[0], g[1..])
  }

  /** main.py:87-101 from the selection value to the DataFrame's contents;
      `None` stands for Python's `None`. */
  function ReadTable<C>(v: Option<SelectionValue<C>>): (r: Result<Table<C>>)
    ensures v.None? <==> r == Err(NothingSelected)
    ensures r == Err(NoFirstRow) <==> v == Some(Grid([]))
    ensures r.Ok? ==> [r.value.header] + r.value.rows == Normalize(v.value)
    ensures r.Ok? && v.value.Scalar? ==> r.value == Table([v.value.cell], [])
  {
    match v
    case None => Err(NothingSelected)
    case Some(sv) =>
      var g := Normalize(sv);
      if |g| == 0 then Err(NoFirstRow) else Ok(SplitHeader(g))
  }
}
