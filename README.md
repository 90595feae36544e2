# UnPivot — a Dafny model of the unpivot core

UnPivot lets a user select a rectangular range in an open Excel workbook,
turns that range from wide format (one column per period) into long format
(one row per identifier/period/value) with `pandas.DataFrame.melt`, and writes
the result into a new sheet of the same workbook. Around the file dialog,
the Excel automation and the console prompts sit a few small pieces of logic,
and this project models those:

- `Decimal` — Python's `str` of a positive integer, with its inverse.
- `SheetNaming` — the search for a free sheet name: "Unpivot", "Unpivot2",
  "Unpivot3", ... (`write_unpivot_to_new_sheet`). It is a method with a loop,
  as in the source. Its contract says that the name is free and that every
  earlier candidate is taken. It also says that at most |names| + 1
  candidates are tried. Candidate names are pairwise distinct because the
  decimal text of a number reads back to that number.
- `Selection` — the selection value turned into a table. `None` stops the run.
  A lone cell becomes a 1x1 grid. Row 0 is the header and the other rows are
  the data.
- `Reshape` — the id/value split check `0 < n_id < N`, the partition of the
  columns, and `melt`. Melt is a pure function over a header and rows of
  opaque cells. Its rows come in pandas' order: all rows for the first value
  column, then all rows for the next one.
- `SheetWriter` — the block written to the sheet (`[header] + rows`) and the
  rule that skips the write when it has no rows or no columns.
- `Unpivot` — the non-interactive part of `main` for one answer to the
  column prompt.

The reshape is `DataFrame.melt` (main.py:126-131). It emits the long rows
value-column-major: all rows for the first value column, then all rows for
the next. It names the two new columns "Tarih" and "Deger".
`Unpivot.MeltWorkedExample` shows this order on a small table.

## Model

| member | source | states |
|---|---|---|
| Decimal.NatToString | main.py:36 | the decimal text of `i` in the f-string is non-empty and all digits, with no leading zero (a single digit for 0-9, a non-zero first digit for every n >= 1) |
| Decimal.ParseNatToString | main.py:36 | reading the decimal text of `n` back gives `n` |
| Decimal.NatToStringInjective | main.py:36 | two numbers with the same decimal text are equal |
| SheetNaming.CandidateInjective | main.py:31-36 | "Unpivot" and "Unpivot" + str(i) for i >= 2 are pairwise distinct names |
| SheetNaming.ChooseSheetName | main.py:29-36 | the chosen name is not among the sheet names; it is the candidate of some step i <= len(names) + 1, and the candidates of all earlier steps are among the names; the loop terminates |
| SheetNaming.FirstFreeNameUnique | main.py:31-36 | the first free name is determined by the existing names alone |
| SheetNaming.BaseNameWhenFree | main.py:31-34 | with no sheet called "Unpivot", the new sheet is "Unpivot" |
| SheetNaming.ThirdNameWhenTwoTaken | main.py:31-36 | with "Unpivot" and "Unpivot2" taken, the new sheet is "Unpivot3" |
| Selection.Normalize | main.py:92-94 | a single cell v becomes the 1x1 grid ((v,),); a grid is left unchanged |
| Selection.SplitHeader | main.py:96-98 | header row followed by the data rows rebuilds the grid; M = rows - 1; a rectangular grid gives a rectangular table |
| Selection.ReadTable | main.py:85-101 | `None`, which Excel also returns when the selection is a single empty cell, stops with "nothing selected"; an empty tuple fails on `values[0]`; otherwise header + data is the normalised grid, and a single cell gives a one-column table with no data rows |
| Reshape.SplitPossibleIff | main.py:109-113 | some answer passes `0 < n_id < N` exactly when N >= 2; with one column the prompt never accepts |
| Reshape.Partition | main.py:119-120 | id_vars ++ value_vars == columns, len(id_vars) = n_id, and both parts are non-empty |
| Reshape.Melt | main.py:126-131 | output header is id_vars ++ [var_name, value_name], of width k + 2; M * (N - k) output rows, each of width k + 2 |
| Reshape.MeltRowAt | main.py:126-131 | output row (j - k) * M + r is rows[r][0:k] ++ [header[j], rows[r][j]]: value-column-major order |
| Reshape.MeltPosition | main.py:126-131 | every output row i is data row i % M melted on value column k + i / M |
| SheetWriter.Block | main.py:43 | the written list has M + 1 rows: the header, then the data rows |
| SheetWriter.WriteData | main.py:44-51 | the write is skipped exactly when there are no rows or the first row is empty; otherwise the whole list is written into an n_rows x n_cols range |
| SheetWriter.MeltedTableWritten | main.py:43-51 | a melted table is always written, as M * (N - k) + 1 rows of k + 2 cells with the header first; with M = 0 only the header row |
| SheetWriter.WriteUnpivotToNewSheet | main.py:23-53 | the new sheet gets the first free name and receives exactly the header-plus-rows block, of len(rows) + 1 rows and len(header) columns |
| Unpivot.UnpivotTable | main.py:125-131 | the long table's header is id_vars ++ ["Tarih", "Deger"]; it has M * (N - n_id) rows |
| Unpivot.RunUnpivot | main.py:82-137 | no selection stops with "nothing selected"; an empty tuple fails; an answer outside 0 < n_id < N (always, for a single cell) asks again; an accepted answer with a column already labelled "Deger" makes `melt` raise; otherwise the long table goes to a fresh, first-free "Unpivot" sheet as M * (N - n_id) + 1 rows of n_id + 2 cells |
| Unpivot.MeltWorkedExample | main.py:126-131 | Dept/Jan/Feb with one identifier column gives A-Jan, B-Jan, A-Feb, B-Feb in that order |

## Left out

- The file dialog (main.py:7-20): user interface.
- Excel automation: starting Excel, opening the workbook and its failure
  path, reading `excel.Selection`, adding the sheet after the last one,
  setting its name and writing the range (main.py:39-40, 51, 67-75, 82-85).
  These are calls into another application. The model takes the existing
  sheet names and the selection value as inputs. It returns the chosen name
  and the block to be written.
- The console: `print`, the Enter prompt and the retry loop that parses the
  answer with `int()` (main.py:57-64, 77-80, 103-117, 122-123, 133-140).
  `Unpivot.RunUnpivot` takes one integer answer. A rejected answer ends in
  `Reprompt`, where the program asks again. Non-numeric input is never
  parsed.
- Unpivot.RunUnpivot: requires a grid selection to be rectangular, because
  Excel's `Range.Value` always is. pandas' handling of ragged rows is not
  modelled.
- Selection.Normalize: a tuple whose first element is not itself a tuple is
  wrapped whole as one cell (main.py:93). Excel never returns such a value
  for a range, so `SelectionValue` has no such case.
- pandas internals: dtype inference, NaN handling, and label-based lookup
  with duplicate column labels. Cell values are opaque and nothing is
  computed on them.
- Reshape.Melt: is positional. pandas' `melt` builds its result by column
  label, so an identifier column labelled like the variable column ("Tarih")
  has its cells replaced by the variable names; the model keeps the
  identifier cells. Duplicate input labels are not modelled either.
- Unpivot.RunUnpivot: models the `ValueError` that pandas 2 raises when a
  column is already labelled "Deger" as the `MeltRaises` outcome; earlier
  pandas versions only warned and went on, which the model does not cover.
- Excel's sheet-name rules (case-insensitive comparison, 31-character limit):
  the source compares names with exact `in` on a list of strings, and so
  does the model.
