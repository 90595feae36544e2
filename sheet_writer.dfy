/** Writing the unpivoted table into a new sheet (main.py:23-53): the sheet
    gets the first free "Unpivot" name and receives the header row followed by
    the data rows, from cell A1. */
module SheetWriter {
  import opened Selection
  import Reshape
  import SheetNaming

  /** main.py:43: `[columns] + values`, the 2-D list handed to Excel. */
  function Block<C>(t: Table<C>): (data: seq<seq<C>>)
    ensures |data| == |t.rows| + 1
    ensures data[0] == t.header && data[1..] == t.rows
  {
    [t.header] + t.rows
  }

  /** What happens to the new sheet: left empty, or `data` written into the
      range A1 .. (nRows, nCols). */
  datatype WriteOutcome<C> = LeftEmpty | Written(nRows: nat, nCols: nat, data: seq<seq<C>>)

  /** main.py:44-51: the range is as tall as the list and as wide as its first
      row; the write is skipped when either is zero. */
  function WriteData<C>(data: seq<seq<C>>): (w: WriteOutcome<C>)
    ensures w.LeftEmpty? <==> |data| == 0 || |data[0]| == 0
    ensures w.Written? ==> w.data == data && w.nRows == |data| > 0 && w.nCols == |data[0]| > 0
  {
    var nRows := |data|;
    var nCols := if nRows > 0 then |data[0]| else 0;
    if nRows == 0 || nCols == 0 then LeftEmpty else Written(nRows, nCols, data)
  }

  /** A melted table is always written: M * (N - k) + 1 rows of k + 2 cells,
      the header first; with no data rows only the header row. */
  lemma MeltedTableWritten<C>(t: Table<C>, k: int, varName: C, valueName: C)
    requires Rectangular(t) && Reshape.AcceptsSplit(k, |t.header|)
    ensures var out := Reshape.Melt(t, k, varName, valueName);
      WriteData(Block(out))
        == Written(|t.rows| * (|t.header| - k) + 1, k + 2, [t.header[..k] + [varName, valueName]] + out.rows)
    ensures |t.rows| == 0 ==>
      WriteData(Block(Reshape.Melt(t, k, varName, valueName))) == Written(1, k + 2, [t.header[..k] + [varName, valueName]])
  {
    var out := Reshape.Melt(t, k, varName, valueName);
    assert Block(out)[0] == out.header;
    if |t.rows| == 0 {
      assert out.rows == [];
    }
  }

  /** `write_unpivot_to_new_sheet` (main.py:23-53) given the names of the
      workbook's sheets: the name the new sheet gets and what is written to it. */
  method WriteUnpivotToNewSheet<C>(sheetNames: seq<string>, t: Table<C>) returns (name: string, w: WriteOutcome<C>)
    ensures name !in sheetNames && SheetNaming.IsFirstFreeName(sheetNames, name)
    ensures w == WriteData(Block(t))
    ensures w.Written? ==> w.nRows == |t.rows| + 1 && w.nCols == |t.header|
  {
    name := SheetNaming.ChooseSheetName(sheetNames);
    var data := Block(t);
    w := WriteData(data);
  }
}
