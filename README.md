# Banana plant record keeper — verified model

The application tracks individual banana plants laid out in blocks (field
sections and access roads). The user drills down from the list of blocks to the
plant grid of one block (22 rows lettered A to V, a block-dependent number of
plants per row) and then to the detail form of one plant, where planting,
fertilizer and flowering dates, the irrigation cycle and notes are edited. A
save derives the expected harvest date (flowering plus 90 days) and replaces the
plant's row in the record table.

The model lifts the record-keeping logic out of the Streamlit script
`app.py` into six Dafny modules:

- `Wrappers` — `Option`, used for null cells, failed lookups and raised errors.
- `Dates` — dates as day ordinals numbered like Python's `date.toordinal`
  (1 = 0001-01-01, 3652059 = 9999-12-31), with a calendar `Ordinal(y, m, d)`.
- `Grid` — row letters, decimal strings, cell names (`C4`), plant ids
  (`S1-Row3-C4`), their parsers and uniqueness, and `BuildGrid`, the nested loop
  that lays out the buttons.
- `PlantTable` — the in-memory table of records, the first-row lookup the form
  reads, and the save (drop every row with the key, append the new entry).
- `PlantForm` — pre-fill defaults, the harvest date and the saved entry.
- `Navigation` — the session state as a `Session` class whose methods are the
  button handlers, and `Submit`, the form submission.

`today` (the ambient clock), the block catalog, the number of plants per row
of a block and the table loaded from file are parameters.

Three facts about the code shape the model. The code raises on a stored date
that does not parse; such values are not represented here. A saved entry always
carries a flowering date and therefore a harvest date, because the form always
supplies a date. Plant ids have only the form `{label}-Row{r}-{letter}{p}`.

## Model

| member | source | states |
|---|---|---|
| `Navigation.LevelOf` | app.py:2-30 | the block list is shown exactly when no block is chosen, the grid exactly when a block but no plant is chosen, the details exactly when both are |
| `Navigation.Session.ClickBlock` | app.py:6-9 | a block button sets block id, label and type together, leaves the plant fields alone and moves to the grid |
| `Navigation.Session.ClickCell` | app.py:24-27 | cell (r, p) records the plant id of that cell, row index r and name `{letter}{p+1}`, keeps the block, moves to the details and keeps the session invariant (the chosen id, row and name agree) |
| `Navigation.Session.Back` | app.py:77-78 | back clears only the plant choice and returns to the grid of the same block |
| `Navigation.Session.Submit` | app.py:54-73 | a submission saves nothing when the harvest date overflows; otherwise the new table is the save of `new_entry` built from the session and the form: exactly one row for the chosen plant, it is the last row and the one the form reads, the other rows are the old table without that key, and the saved row carries the plant id, block id and type of the session, row index + 1 (so 1..22), the plant name as position, the submitted planting, fertilizer and flowering dates, irrigation cycle and notes, and a harvest date 90 days after flowering |
| `Grid.Decimal` | app.py:22-23 | the decimal text of a number is non-empty, digits only, and starts with 0 only for zero |
| `Grid.ValueOfDecimal` | app.py:22-23 | reading the decimal text of n gives back n |
| `Grid.DecimalOfValue` | app.py:22-23 | every digit string without a leading zero is the decimal text of its value |
| `Grid.CellNameRoundTrip` | app.py:16-22 | the name of cell (r, p) is the r-th uppercase letter followed by the decimal text of p+1: it parses back to (r, p) |
| `Grid.ParsedCellName` | app.py:16-22 | every name that parses to (r, p) is the name of cell (r, p), with r below 22 |
| `Grid.SplitAtDash` | app.py:23 | a digit string followed by a dash splits uniquely |
| `Grid.IdOfInjective` | app.py:23 | within one block label, an id `{label}-Row{r+1}-{name}` determines the row and the name |
| `Grid.PlantIdInjective` | app.py:18-23 | distinct cells (r, p) of one block have distinct plant ids |
| `Grid.CellCountUniform` | app.py:18-21 | a grid of rows each holding n cells has rows × n cells |
| `Grid.RowLetter` | app.py:16-20 | the r-th uppercase letter; specified by `Grid.CellNameRoundTrip` and `Grid.ParsedCellName`, which read it back as r for r below 22 |
| `Grid.CellName` | app.py:22 | the name `{letter}{p+1}`; specified by `Grid.CellNameRoundTrip` and `Grid.ParsedCellName` |
| `Grid.IdOf` | app.py:23 | the id `{label}-Row{r+1}-{name}`; specified by `Grid.IdOfInjective` |
| `Grid.PlantId` | app.py:22-23 | the id of cell (r, p); specified by `Grid.PlantIdInjective` and `Grid.BuildGrid` |
| `Grid.BuildGrid` | app.py:14-24 | the grid has 22 rows of `plants_per_row` cells, cell (r, p) carries row index r, the name that parses to (r, p) and the id of (r, p), there are 22 × `plants_per_row` cells and their ids are pairwise distinct |
| `PlantTable.FirstIndex` | app.py:32-48 | the lookup finds no index exactly when no row has the key, and otherwise the first row with the key |
| `PlantTable.Find` | app.py:32-48 | the row the form reads (`.iloc[0]` of the filtered frame) is absent exactly when no row has the key, and otherwise a row of the table with that key; `PlantTable.FirstIndex` makes it the first such row |
| `PlantTable.Without` | app.py:72 | no row left after the filter has the key |
| `PlantTable.KeptIndicesExact` | app.py:72 | the kept positions are ascending, are exactly the rows with another key, and number the table length minus the rows with the key |
| `PlantTable.WithoutIsKeptRows` | app.py:72 | the filter keeps the rows at the kept positions, unchanged and in order |
| `PlantTable.CountWithout` | app.py:72 | after the filter no row has the key and every other key has as many rows as before |
| `PlantTable.FindWithout` | app.py:72 | the filter does not change the first row of any other key |
| `PlantTable.WithoutAbsent` | app.py:72 | filtering a key that no row has changes nothing |
| `PlantTable.FindAppend` | app.py:73 | after the append, the first row of a key is the earlier first row, else the appended row if it has the key |
| `PlantTable.Upsert` | app.py:72-73 | the saved table ends with the entry and no earlier row has its key; `PlantTable.UpsertShape`, `UpsertSingleRow`, `UpsertOtherKeys`, `UpsertOverwrites` and `UpsertIdempotent` state the rest |
| `PlantTable.UpsertSingleRow` | app.py:72-73 | after a save exactly one row has the entry's key and the lookup returns the entry |
| `PlantTable.UpsertShape` | app.py:72-73 | a save keeps the rows with other keys unchanged and in their original order, puts the entry last, and the length becomes old length − matching rows + 1 |
| `PlantTable.UpsertOtherKeys` | app.py:72-73 | a save leaves the count and the first row of every other key unchanged |
| `PlantTable.UpsertOverwrites` | app.py:72-73 | saving a key twice gives the table of the second save alone |
| `PlantTable.UpsertIdempotent` | app.py:72-73 | saving the same entry twice gives the same table as saving it once |
| `PlantForm.HarvestDate` | app.py:54 | the harvest date is exactly 90 days after flowering, and is absent (OverflowError) exactly when that passes 9999-12-31 |
| `PlantForm.HarvestOfNewYear2024` | app.py:54 | flowering on 2024-01-01 gives a harvest on 2024-03-31 |
| `PlantForm.DateDefault` | app.py:35-44 | a date input starts at the stored date when the plant has a row and the cell is not null, and at today otherwise |
| `PlantForm.TextDefault` | app.py:45-48 | a text input starts at the stored text when the plant has a row, and empty otherwise |
| `PlantForm.Prefill` | app.py:32-53 | every field of the form follows its default rule on the first row of the plant; a plant without a row shows today in all three dates and empty texts |
| `PlantForm.NewEntry` | app.py:59-71 | the entry a submission builds; specified by `PlantForm.SaveOfNewEntry` |
| `PlantForm.SaveOfNewEntry` | app.py:59-73 | the entry has the session's plant id, block id and type, row index + 1 as row, the plant name as position and every submitted field; saving it leaves exactly one row for the plant, last, read back by the form, after the old table without that key |
| `PlantForm.ReopenAfterSave` | app.py:32-73 | in the in-memory table, opening a plant right after saving it pre-fills the form with exactly the submitted values |
| `PlantForm.SaveLeavesOtherForms` | app.py:32-73 | saving one plant does not change the pre-filled form of any other plant |

## Left out

- Streamlit rendering (headers, columns, buttons, forms, info and success
  messages) is not modelled; a button click is a method call on `Session`, and
  the rerun of the script after a click is taken as the next call.
- The session's initial values are set outside `app.py`; the `Session`
  constructor starts with no block and no plant chosen.
- Loading the table from the data file and `df.to_csv` are file I/O; the table
  is an in-memory sequence passed in and returned.
- `pd.to_datetime` and `pd.notnull` are foreign calls: stored date cells are
  `Option<Date>`; a stored value that does not parse (the code would raise) is
  not represented.
- Null irrigation or notes cells are not represented: text cells are strings.
- `datetime.date.today()` is the ambient clock: `today` is a parameter.
- `custom_blocks`, `get_plants_per_row` and `DATA_FILE` are not defined in
  `app.py`: the block, its type and the plants per row are inputs.
  `BuildGrid` requires at least one plant per row, as `st.columns` does.
- Widget bounds of `st.date_input` (the range of dates a user can pick) are not
  modelled: any representable date can be submitted.
- The pandas index renumbering of `ignore_index=True` is not modelled.
- Concurrent sessions saving at once (a read, modify and full overwrite without
  a lock, where the last writer wins) are not modelled.
- Same-day reminder queries and the creation of an empty data file are not part
  of `app.py` and are not part of this model.
