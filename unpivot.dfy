/** The non-interactive part of `main` (main.py:82-137): from the value of the
    Excel selection and the user's answer for the number of identifier
    columns to the sheet the long-format table is written to. */
module Unpivot {
  import opened Selection
  import opened Reshape
  import SheetNaming
  import SheetWriter

  /** An Excel cell value: text, or any other value (number, date, empty). */
  datatype Cell<V> = Text(text: string) | Value(value: V)

  /** The column names given to melt (main.py:129-130). */
  const VarName: string := "Tarih"
  const ValueName: string := "Deger"

  /** How a run ends after the user pressed Enter and typed an answer. */
  datatype RunOutcome<V> =
    | Stopped(failure: Failure)   // reported, nothing written
    | Reprompt                    // the answer is rejected and asked for again
    | MeltRaises                  // `melt` raises ValueError: a column is already labelled "Deger"
    | Done(sheet: string, result: Table<Cell<V>>, write: SheetWriter.WriteOutcome<Cell<V>>)

  /** The unpivot of main.py:126-131 with its literal column names. */
  function UnpivotTable<V>(t: Table<Cell<V>>, nId: int): (out: Table<Cell<V>>)
    requires Rectangular(t) && AcceptsSplit(nId, |t.header|)
    ensures out.header == t.header[..nId] + [Text("Tarih"), Text("Deger")]
    ensures |out.rows| == |t.rows| * (|t.header| - nId)
  {
    Melt(t, nId, Text(VarName), Text(ValueName))
  }

  /** main.py:82-137 for one answer `nId` to the prompt of main.py:111.
      Excel hands back rectangular selections only. `melt` refuses a value
      column name that is already a column label (pandas 2), so a header cell
      "Deger" ends the program with an exception before any sheet is added. */
  method RunUnpivot<V(==)>(sheetNames: seq<string>, selection: Option<SelectionValue<Cell<V>>>, nId: int)
    returns (outcome: RunOutcome<V>)
    requires selection.Some? && selection.value.Grid? ==> RectangularGrid(selection.value.rows)
    ensures outcome == Stopped(NothingSelected) <==> selection.None?
    ensures outcome == Stopped(NoFirstRow) <==> selection == Some(Grid([]))
    ensures outcome.Reprompt? <==>
      ReadTable(selection).Ok? && !AcceptsSplit(nId, |ReadTable(selection).value.header|)
    ensures selection.Some? && selection.value.Scalar? ==> outcome.Reprompt?
    ensures outcome.MeltRaises? <==>
      && ReadTable(selection).Ok?
      && AcceptsSplit(nId, |ReadTable(selection).value.header|)
      && Text(ValueName) in ReadTable(selection).value.header
    ensures outcome.Done? ==>
      var t := ReadTable(selection).value;
      && Rectangular(t) && AcceptsSplit(nId, |t.header|) && Text(ValueName) !in t.header
      && outcome.sheet !in sheetNames
      && SheetNaming.IsFirstFreeName(sheetNames, outcome.sheet)
      && outcome.result == UnpivotTable(t, nId)
      && outcome.write == SheetWriter.Written(|t.rows| * (|t.header| - nId) + 1, nId + 2,
                                              [outcome.result.header] + outcome.result.rows)
  {
    var read := ReadTable(selection);
    if read.Err? {
      return Stopped(read.error);
    }
    var t := read.value;
    if !AcceptsSplit(nId, |t.header|) {
      return Reprompt;
    }
    if Text(ValueName) in t.header {
      return MeltRaises;
    }
    var melted := UnpivotTable(t, nId);
    SheetWriter.MeltedTableWritten(t, nId, Text(VarName), Text(ValueName));
    var name, w := SheetWriter.WriteUnpivotToNewSheet(sheetNames, melted);
    outcome := Done(name, melted, w);
  }

  /** A worked case: columns Dept, Jan, Feb with one identifier column. All
      rows for Jan come before all rows for Feb. */
  lemma MeltWorkedExample(t: Table<Cell<int>>)
    requires t == Table([Text("Dept"), Text("Jan"), Text("Feb")],
                        [[Text("A"), Value(1), Value(2)], [Text("B"), Value(3), Value(4)]])
    ensures UnpivotTable(t, 1) == Table([Text("Dept"), Text("Tarih"), Text("Deger")],
                                        [[Text("A"), Text("Jan"), Value(1)],
                                         [Text("B"), Text("Jan"), Value(3)],
                                         [Text("A"), Text("Feb"), Value(2)],
                                         [Text("B"), Text("Feb"), Value(4)]])
  {
    var a, b := Text(VarName), Text(ValueName);
    MeltRowAt(t, 1, a, b, 1, 0);
    MeltRowAt(t, 1, a, b, 1, 1);
    MeltRowAt(t, 1, a, b, 2, 0);
    MeltRowAt(t, 1, a, b, 2, 1);
    var out := Melt(t, 1, a, b);
    assert out.rows[0] == [Text("A"), Text("Jan"), Value(1)];
    assert out.rows[1] == [Text("B"), Text("Jan"), Value(3)];
    assert out.rows[2] == [Text("A"), Text("Feb"), Value(2)];
    assert out.rows[3] == [Text("B"), Text("Feb"), Value(4)];
  }
}
