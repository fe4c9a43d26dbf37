# Tariff editor core, modelled in Dafny

The model covers the core of a desktop editor for XML price tariffs ("comtec"
documents). The tariff engine holds the current document and a cached
template row. It moves data both ways between the document's
`parameter_tuples` container and a table: extracting the schema, the rows and
the metadata, rebuilding the container from the table, and applying bulk
changes to the table in place.

The model also covers two pieces of the user interface:

- The matrix import dialog turns spreadsheet clipboard text into a grid. A
  price grid then becomes flat records, one per price cell. Each record holds
  the cell's top and left axis values, its price, and the inferred lower
  bounds ("min" columns). Cell texts are read with the dialog's heuristic
  number reader.
- The table models show and edit the DataFrame cell by cell, and hide the
  rows whose shown text is not among a column's allowed values.

Modules, one per file:

- `Wrappers`: `Option` and `Result`.
- `Text`, `Numbers`: the Python string operations and the number reading and
  writing the source relies on. Python floats are exact `real`s here.
  - `float(s)` is `ParseFloat`.
  - `f"{v:.2f}"` is `Fixed2`.
  - `int(v)` is `Trunc`.
  - `str(i)` is `IntText`.
- `Table`: cell values, rows and the `DataFrame` class. A column that is
  not a key of a row is pandas' NaN.
- `TariffDocument`: the document tree as values. Each engine operation is a
  pure function here, with the lemmas that relate them.
- `Engine`: the `TariffEngine` class. Its methods change the document and
  the template in place, and each is proved against its function in
  `TariffDocument`.
- `NumberNormalizer`: `clean_number`. The regular expression match is
  written out as a greedy scanner, then the separator heuristic is applied.
- `MatrixImport`: the clipboard split and `process_import`. The loops are
  proved against recursive specifications, and those specifications against
  "one record per non-blank cell, in row-major order".
- `TableModels`: `PandasModel.data`/`setData` and the `FilterProxyModel`.

## Model

| member | source | states |
|---|---|---|
| Engine.PatchTuple | src/core/tariff_engine.py:259-282 | the loop that patches a deep copy of the template yields exactly `Instantiate` of the template and the row |
| Engine.TariffEngine.constructor | src/core/tariff_engine.py:12-19 | a new engine has no document and no template |
| Engine.TariffEngine.BuildSeed | src/core/tariff_engine.py:72-79 | the loop appending one parameter per column builds `SeedTuple` of the definition |
| Engine.TariffEngine.CreateFromDefinition | src/core/tariff_engine.py:27-93 | the document is the new tree with an emptied container; the template is the seed tuple (one parameter per column, numbers with two decimals, 0.00 when missing); the returned schema is the definition's columns and the table is empty |
| Engine.TariffEngine.LoadTemplate | src/core/tariff_engine.py:96-116 | on a parse failure the state is unchanged and the error message returned; on success the tree is the document, and the template is replaced by the first tuple only when there is one |
| Engine.TariffEngine.GetMetadata | src/core/tariff_engine.py:118-136 | empty exactly when no loaded root or no `resource_tariff`; otherwise exactly the keys id, name, valid_from, valid_to and spec, holding the header's `id`, `name`, `valid_from_date` and `valid_till_date` texts and the item's `tariff_item_spec` text ("" when absent) |
| Engine.TariffEngine.ExtractTuplesCheckSchema | src/core/tariff_engine.py:138-187 | the schema is the first tuple's codes, or the template's when the container is empty; one row per tuple, row i being `ExtractRow` of tuple i |
| Engine.TariffEngine.GetCurrentSchema | src/core/tariff_engine.py:322-325 | the schema part of an extraction |
| Engine.TariffEngine.GetParameterDefaults | src/core/tariff_engine.py:327-340 | keys are exactly the template's non-empty codes when the template has parameters, else no defaults; each code maps to the default of its last parameter |
| Engine.TariffEngine.UpdateMetadata | src/core/tariff_engine.py:189-222 | the document becomes `WithMetadata` of the old one when it has a header, else stays; the template is unchanged |
| Engine.TariffEngine.UpdateTuples | src/core/tariff_engine.py:224-285 | the new document and template are those of `Reconstruct` |
| Engine.TariffEngine.ApplyBulkChange | src/core/tariff_engine.py:304-320 | the same table is returned and its rows become `BulkChanged` of the old rows; the columns are unchanged |
| Engine.TariffEngine.SetOrderKind | src/core/tariff_engine.py:341-345 | the same table is returned and its rows become `OrderKindSet` of the old rows |
| TariffDocument.Codes | src/core/tariff_engine.py:164-170 | the schema holds exactly the non-empty codes of the tuple's parameters, no more entries than parameters |
| TariffDocument.CodesAppend | src/core/tariff_engine.py:164-170 | the codes of two tuples side by side are their codes side by side, so the schema keeps parameter order and repeats |
| TariffDocument.Schema | src/core/tariff_engine.py:138-170 | no schema without a loaded root or a container, nor with no tuple and no template; every schema entry is a non-empty code |
| TariffDocument.Extract | src/core/tariff_engine.py:138-187 | the schema is the first tuple's codes, or the template's when the container is empty; one row per tuple of the container (none without one), row i being `ExtractRow` of tuple i; every row's keys are schema codes |
| TariffDocument.ExtractRow | src/core/tariff_engine.py:174-185 | keys are schema codes; each cell is the parsed value of some parameter with that code; for the last parameter with a schema code, the cell is present exactly when it has a value, and is that value parsed |
| TariffDocument.ExtractRowStep | src/core/tariff_engine.py:176-184 | one more parameter keeps the row's properties: cells under schema codes only, each from a parameter with its code, and the last parameter with a code deciding its cell |
| TariffDocument.ExtractRows | src/core/tariff_engine.py:173-187 | one row per tuple, in order |
| Table.ParseValue | src/core/tariff_engine.py:181-184 | a number exactly when `float()` accepts the text, and then that number; otherwise the text itself |
| TariffDocument.FormatValue | src/core/tariff_engine.py:266-282 | a text value is written exactly as it is (`str(v)`); a number reads back as its truncation in `id_` columns and as its value rounded to hundredths elsewhere; in `id_` columns it is written as an optional '-', present exactly when the truncation is negative, followed by digits with no leading zero and no decimal point; elsewhere as an optional '-', present exactly for negative values, a whole part with no leading zero, '.', and two digits |
| Numbers.IntText | src/core/tariff_engine.py:271 | `str(i)`: a '-' exactly for negatives, then the digits of the magnitude without leading zeros, and no decimal point |
| TariffDocument.Patch | src/core/tariff_engine.py:263-282 | the copy keeps its code; a parameter not overwritten is copied; an overwritten one with a text cell gets exactly that text; with a number cell it gets `FormatValue` of the number; a missing cell is written "nan" (the template's text kept in `id_` columns) |
| TariffDocument.Instantiate | src/core/tariff_engine.py:259-283 | same length and codes as the template; parameters not overwritten are copied; overwritten ones with a present cell carry the formatted cell; with a missing cell "nan", or the template's text in `id_` columns; each parameter is `Patch` of the template's |
| TariffDocument.Reconstruct | src/core/tariff_engine.py:224-285 | nothing changes when there is no root, no container, or neither a tuple nor a usable template; otherwise the container holds one instantiated template per row, the header, the item's other fields and the root's other children are kept, and the template is the cached one or the first tuple |
| TariffDocument.RebuildKeepsMetadata | src/core/tariff_engine.py:224-285 | `get_metadata` reads the same after `update_tuples` |
| TariffDocument.ReconstructIdempotent | src/core/tariff_engine.py:224-285 | rebuilding twice from the same table equals rebuilding once |
| TariffDocument.UpdateThenExtract | src/core/tariff_engine.py:224-282 | after a rebuild, also from an empty table, the extracted schema is the template's codes, there is one row per table row, and each written cell reads back as its rendering |
| TariffDocument.Metadata | src/core/tariff_engine.py:118-136 | empty exactly when not loaded or headerless; otherwise the five keys id, name, valid_from, valid_to, spec |
| TariffDocument.SetIfPresent | src/core/tariff_engine.py:199-200 | writing an element that exists sets its text; a missing element is not created; other elements are kept |
| TariffDocument.WriteHeader | src/core/tariff_engine.py:194-222 | the header's elements are kept; name and the two dates take the new values where given; id and code both take the new id; everything else is unchanged |
| TariffDocument.WriteItem | src/core/tariff_engine.py:198-215 | the item's name and dates take the new values where given and exist; everything else is unchanged |
| TariffDocument.HeaderFindText | src/core/tariff_engine.py:194-222 | what `findtext` reads from the written header: the new values where the elements exist, else the old texts |
| TariffDocument.WithMetadata | src/core/tariff_engine.py:189-222 | the document keeps a header and root children; the item keeps its existence; the tuples are unchanged |
| TariffDocument.MetadataRoundTrip | src/core/tariff_engine.py:189-222 | `get_metadata` after `update_metadata` gives the new values where the elements exist, the old ones for keys not given, and the same spec |
| TariffDocument.SpecUntouched | src/core/tariff_engine.py:189-222 | `update_metadata` never changes the item's `tariff_item_spec` |
| TariffDocument.DefaultsOf | src/core/tariff_engine.py:327-340 | the defaults' keys are the template's non-empty codes; each is the value of the last parameter with that code, parsed, or the text (`""` when absent) |
| TariffDocument.SeedTuple | src/core/tariff_engine.py:68-79 | one parameter per definition column |
| TariffDocument.NumberSeed | src/core/tariff_engine.py:76-77 | a number default is written as `f"{x:.2f}"` writes it and reads back rounded to hundredths |
| TariffDocument.UnitSeed | src/core/tariff_engine.py:75-77 | a boolean is written "1.00" or "0.00" and reads back as 1 or 0 |
| TariffDocument.SeedText | src/core/tariff_engine.py:75-79 | the seed text reads back as the default; a missing default is written "0.00", a boolean "1.00" or "0.00", a number as `f"{x:.2f}"` writes it (sign, whole part without leading zero, two decimals); `null` is written "None"; a text default, or any other default, is written exactly as its text |
| TariffDocument.NewDocument | src/core/tariff_engine.py:37-68 | the container holds the seed tuple alone, and `get_metadata` reads id NEW_TARIFF, name "New Tariff", today to five years on, and the definition's spec ("UnknownSpec" when missing) |
| TariffDocument.RebuildNoRows | src/core/tariff_engine.py:84-91 | rebuilding a document holding only the template's tuple from a table without rows empties the container, keeps the template, and extracts as the template's codes with no rows |
| TariffDocument.CreateShape | src/core/tariff_engine.py:27-93 | after creation the container is empty, the template is the seed, the extracted schema is the seed's codes (the columns when none is empty) and there are no rows |
| TariffDocument.SeedDefaultsReadBack | src/core/tariff_engine.py:72-85 | the parameter defaults of a seeded template are the definition's defaults, numbers rounded to hundredths, a boolean as 1.0 or 0.0, `null` as the text "None" and a missing default as 0.0 |
| TariffDocument.BulkRow | src/core/tariff_engine.py:309-319 | only the column's cell changes and only in a selected row, multiplied by 1 + percentage/100; the keys are kept |
| TariffDocument.BulkChanged | src/core/tariff_engine.py:304-320 | rows unchanged when the column is missing or not numeric; otherwise every row is `BulkRow` with its selection |
| TariffDocument.OrderKindSet | src/core/tariff_engine.py:341-345 | unchanged without the column; otherwise every row's `id_orderkind` is the value and every other cell is kept |
| Numbers.ParseFloat | src/core/tariff_engine.py:182 | a parse succeeds only on a non-empty text |
| Numbers.Trunc | src/core/tariff_engine.py:271 | the integer part, toward zero, for either sign |
| Numbers.Fixed2 | src/core/tariff_engine.py:280 | an optional '-', present exactly for negative values, then a whole part of digits with no leading zero, '.', and two digits |
| Numbers.Round2 | src/core/tariff_engine.py:280 | within half a cent of the value |
| Numbers.Round2WholeCents | src/core/tariff_engine.py:280 | the rounded value is a whole number of hundredths |
| Numbers.Fixed2RoundTrip | src/core/tariff_engine.py:278-280 | a two-decimal text reads back as the value rounded to hundredths |
| Numbers.IntTextRoundTrip | src/core/tariff_engine.py:271 | `float(str(i))` is `i` |
| Numbers.TwoDotsFail | src/ui/dialogs/matrix_import_dialog.py:344-346 | a text with two dots is not a float |
| Text.StripShape | src/ui/dialogs/matrix_import_dialog.py:247 | `strip` leaves no whitespace at either end, gives "" exactly for all-whitespace input, and keeps a text without whitespace at its ends |
| Text.JoinSplit | src/ui/dialogs/matrix_import_dialog.py:45 | joining the pieces of a split gives back the text |
| Text.SplitJoin | src/ui/dialogs/matrix_import_dialog.py:49 | splitting a join of separator-free pieces gives back the pieces |
| Text.RemoveCharKeeps | src/ui/dialogs/matrix_import_dialog.py:340 | removing a character keeps exactly the other characters, and shortens the text by its count |
| NumberNormalizer.RunLenShape | src/ui/dialogs/matrix_import_dialog.py:303 | the greedy scan stops at a text of the pattern's shape that the rest cannot extend |
| NumberNormalizer.FirstDigit | src/ui/dialogs/matrix_import_dialog.py:303 | no position exactly when there is no digit, otherwise the first digit |
| NumberNormalizer.Match | src/ui/dialogs/matrix_import_dialog.py:303 | no match exactly when there is no digit; a match has the pattern's shape and starts at the first digit |
| NumberNormalizer.MatchOf | src/ui/dialogs/matrix_import_dialog.py:303 | digit-free text, then a pattern-shaped run, then a rest that cannot extend it: the match is that run |
| NumberNormalizer.Normalize | src/ui/dialogs/matrix_import_dialog.py:309-341 | no comma survives the rewriting and a run without separators is unchanged; the separator lemmas below give each pattern's value |
| NumberNormalizer.CleanNumberValue | src/ui/dialogs/matrix_import_dialog.py:289-348 | a text without a digit (including empty or blank) reads as 0.0 |
| NumberNormalizer.NoDigitStrip | src/ui/dialogs/matrix_import_dialog.py:290-291 | stripping cannot create a digit |
| NumberNormalizer.AllGroupsOfThree | src/ui/dialogs/matrix_import_dialog.py:327-340 | the `is_thousands` scan with its early exit is true exactly when every group after the first has three digits |
| NumberNormalizer.CleanNumber | src/ui/dialogs/matrix_import_dialog.py:289-348 | the step-by-step rewriting returns `CleanNumberValue` |
| NumberNormalizer.CleanNumberOf | src/ui/dialogs/matrix_import_dialog.py:289-348 | a stripped text is read through its first match alone, whatever surrounds it |
| NumberNormalizer.Undotted | src/ui/dialogs/matrix_import_dialog.py:340 | removing the dots of a digits-and-dots run leaves only digits |
| NumberNormalizer.CommaIsDecimalPoint | src/ui/dialogs/matrix_import_dialog.py:313-319 | one comma is the decimal point and the dots before it are thousands separators: the value is the undotted integer part plus the fraction |
| NumberNormalizer.ManyCommasFail | src/ui/dialogs/matrix_import_dialog.py:314-319 | a run with two or more commas, with or without dots, does not parse after rewriting, so it reads as 0.0 |
| NumberNormalizer.BothSeparators | src/ui/dialogs/matrix_import_dialog.py:314-315 | with a comma and a dot, whichever comes first, the dots are dropped and the comma is the decimal point; the run parses exactly when a digit is left |
| NumberNormalizer.DotThousands | src/ui/dialogs/matrix_import_dialog.py:324-340 | dots before groups of exactly three digits are dropped: the value is the integer the digits spell |
| NumberNormalizer.DotDecimal | src/ui/dialogs/matrix_import_dialog.py:324-340 | a single dot before a group that is not three digits long is the decimal point |
| NumberNormalizer.ManyDotsFail | src/ui/dialogs/matrix_import_dialog.py:324-346 | two or more dots that are not all thousands separators leave the run unparseable |
| NumberNormalizer.DigitsOnly | src/ui/dialogs/matrix_import_dialog.py:303-344 | a digit-only run reads as the integer it spells |
| MatrixImport.Trim | src/ui/dialogs/matrix_import_dialog.py:47 | `rstrip('\r\n')` leaves a prefix of the line that does not end in '\r' or '\n', and removes only '\r' and '\n' characters |
| MatrixImport.GridOf | src/ui/dialogs/matrix_import_dialog.py:46-49 | no more rows than lines, and no cell holds a tab |
| MatrixImport.ClipboardRows | src/ui/dialogs/matrix_import_dialog.py:44-49 | no row is empty and no cell holds a tab; `GridShape` and `ClipboardRoundTrip` give when it is empty and that it inverts a tab-separated copy |
| MatrixImport.SplitClipboard | src/ui/dialogs/matrix_import_dialog.py:44-49 | the loop builds exactly `ClipboardRows` of the text |
| MatrixImport.GridShape | src/ui/dialogs/matrix_import_dialog.py:44-53 | the grid is empty (the tutorial view) exactly when every line is empty after trimming; no row of the grid is empty |
| MatrixImport.ClipboardRoundTrip | src/ui/dialogs/matrix_import_dialog.py:44-49 | pasting a grid copied as tab-separated lines gives back the grid |
| MatrixImport.TopValues | src/ui/dialogs/matrix_import_dialog.py:222-226 | one value per header cell after the corner, each that cell read |
| MatrixImport.HeaderValues | src/ui/dialogs/matrix_import_dialog.py:222-226 | the loop computes `TopValues` |
| MatrixImport.TopMins | src/ui/dialogs/matrix_import_dialog.py:235 | the first lower bound is 0 and each later one is the previous top value |
| MatrixImport.MinColumn | src/ui/dialogs/matrix_import_dialog.py:272-276 | a lower bound is written exactly when the name contains "max" and the name with "min" is a table column; that column has the same length |
| MatrixImport.PrevLeft | src/ui/dialogs/matrix_import_dialog.py:239-281 | 0 for the first data row, then the left value of the nearest earlier non-empty row |
| MatrixImport.RowCells | src/ui/dialogs/matrix_import_dialog.py:253-258 | every listed cell is a non-blank inner cell of that row |
| MatrixImport.Cells | src/ui/dialogs/matrix_import_dialog.py:241-258 | every listed cell is a non-blank inner cell of an earlier row |
| MatrixImport.RowCellsExactly | src/ui/dialogs/matrix_import_dialog.py:253-258 | a cell of a row is listed exactly when it is non-blank, inside the header width and before the bound |
| MatrixImport.CellsExactly | src/ui/dialogs/matrix_import_dialog.py:241-258 | a cell is listed exactly when it is a non-blank inner cell of an earlier row |
| MatrixImport.RowCellsOrdered | src/ui/dialogs/matrix_import_dialog.py:253-258 | a row's cells are listed left to right |
| MatrixImport.CellsOrdered | src/ui/dialogs/matrix_import_dialog.py:241-278 | the cells are listed in row-major order |
| MatrixImport.RecordFor | src/ui/dialogs/matrix_import_dialog.py:265-276 | a record's keys are the two axis names, "price" and each lower-bound column written |
| MatrixImport.RecordFields | src/ui/dialogs/matrix_import_dialog.py:265-276 | each key holds the value written last under it: the lower bounds, then the price and axis values unless a later key of the same name overwrote them |
| MatrixImport.RecordsOf | src/ui/dialogs/matrix_import_dialog.py:278 | one record per cell, the cell's own record |
| MatrixImport.RowRecordsBeyond | src/ui/dialogs/matrix_import_dialog.py:255 | cells beyond the header's width add no record, so breaking there loses nothing |
| MatrixImport.RowRecordsCells | src/ui/dialogs/matrix_import_dialog.py:253-278 | a row's records are those of its non-blank inner cells |
| MatrixImport.GridRecordsCells | src/ui/dialogs/matrix_import_dialog.py:241-281 | the records of the rows so far are those of their non-blank inner cells |
| MatrixImport.GridExpansion | src/ui/dialogs/matrix_import_dialog.py:241-281 | the expansion has one record per non-blank inner cell, exactly those cells, in row-major order, each built from its column and row values |
| MatrixImport.BuildRecord | src/ui/dialogs/matrix_import_dialog.py:265-276 | the dictionary built step by step is `RecordFor` with the lower-bound columns that exist |
| MatrixImport.ImportCell | src/ui/dialogs/matrix_import_dialog.py:257-278 | one pass of the inner loop extends the row's records by the cell's record, or by nothing for a blank cell |
| MatrixImport.ImportRow | src/ui/dialogs/matrix_import_dialog.py:246-281 | the inner loop, with its break and continue, yields the row's records and its left value |
| MatrixImport.ExpandGrid | src/ui/dialogs/matrix_import_dialog.py:220-283 | the outer loop yields `GridRecords` of the grid |
| MatrixImport.ImportOf | src/ui/dialogs/matrix_import_dialog.py:207-287 | a warning exactly when an axis is "(Ignorieren)"; an error exactly when both axes are chosen and the grid is empty; otherwise the records |
| MatrixImport.ProcessImport | src/ui/dialogs/matrix_import_dialog.py:207-287 | the method's outcome is `ImportOf` of the grid and the chosen axes |
| TableModels.DataOf | src/ui/models.py:44-61 | text exactly for the display role at a valid in-table index, and then the cell's display text; centred exactly for the alignment role at a valid index; nothing otherwise |
| TableModels.DisplayText | src/ui/models.py:52-58 | a text cell is shown as the text itself (`str(value)`); a missing cell (NaN) as "nan"; an integral number as `str(int(v))` writes it ('-', then digits with no leading zero, no point), any other as `f"{v:.2f}"` writes it; a '-' exactly for negatives |
| TableModels.DisplayReadBack | src/ui/models.py:53-57 | a shown number reads back as itself when integral, else rounded to cents |
| TableModels.EditCell | src/ui/models.py:79-91 | refused exactly when the cell is numeric (or NaN) and the text is not a float; an accepted edit keeps the row count and fills the cell |
| TableModels.EditCellEffect | src/ui/models.py:77-92 | an edit is refused exactly when the cell is numeric (or NaN) and the text is not a float; otherwise only that cell changes, to the float or to the text |
| TableModels.EditShownText | src/ui/models.py:77-87 | writing back a cell's shown text is accepted and keeps a text, and a number up to rounding to cents |
| TableModels.PandasModel.SetData | src/ui/models.py:77-92 | only the edit role writes; success exactly when `EditCell` accepts, and then the table's rows are its result; otherwise the rows are unchanged; the columns never change |
| TableModels.IndexAt | src/ui/models.py:27 | `model.index` is a valid index exactly for a position inside the table, and then at that position |
| TableModels.FilterText | src/ui/models.py:26-29 | the shown text of an in-table cell, "None" for a position outside the table (negative ones included) |
| TableModels.Passes | src/ui/models.py:21-31 | with no filter every row passes; `DropFilterWidens` and `SetFilterNarrows` relate it to changed filters |
| TableModels.DropFilterWidens | src/ui/models.py:21-31 | removing a column's filter never hides a row |
| TableModels.SetFilterNarrows | src/ui/models.py:21-31 | with a filter set on a column, a row passes exactly when it passes the other filters and its text there is allowed |
| TableModels.FilterProxyModel.SetFilterByColumn | src/ui/models.py:9-15 | `None` removes only that column's filter; values replace that column's entry with their set |
| TableModels.FilterProxyModel.ClearFilters | src/ui/models.py:17-19 | no filters remain and every row is accepted |
| TableModels.FilterProxyModel.FilterAcceptsRow | src/ui/models.py:21-31 | the loop with its early return accepts exactly the rows that pass every filter; with no filters every row is accepted |

## Left out

- Reading and writing files is not modelled: JSON definitions, XML parsing and
  serialisation, and `save_to_file`. A parsed document and a parsed definition
  are inputs, and a parse failure is a `Failure` value with its message.
- `get_available_definitions` and `save_definition` are left out. They only
  list and write files in the definitions folder.
- `current_file_path` is not kept: it only records where a template came
  from.
- The clock is a parameter: `CreateFromDefinition` takes today's date and the
  date five years on as texts.
- Floating point is exact arithmetic on `real`. IEEE rounding, `inf` and NaN
  arithmetic are not modelled. `Fixed2` rounds ties away from zero. Python
  rounds the binary value, which can differ on ties.
- Numbers.ParseFloat: accepts only an optional sign and the decimal forms
  `D+`, `D+.`, `D+.D+` and `.D+`. Python's `float()` also accepts surrounding
  whitespace, exponents, underscores, "inf" and "nan"; texts using those are
  refused here.
- A missing (NaN) cell is shown as "nan". Python's `float("nan")` would read
  that text back as NaN; the model refuses it, as in the previous item.
- TariffDocument.ExtractRow: a parameter without a `value` element is a missing cell, which
  is pandas' NaN. That is right in a numeric column only. In a text column
  pandas keeps `None`: the source then shows "None", edits the cell as text
  and writes "None" back. The model shows "nan", accepts only a float and
  writes "nan", because a row holds no `None` cell.
- TariffDocument.BulkChanged: `is_numeric_dtype` is judged from the values,
  since the model keeps no dtypes. A column of dtype `object` that holds only
  numbers is multiplied here, but the source leaves it unchanged.
- TariffDocument.SeedText: a list or object default is given by the text
  Python's `str` renders it as. JSON parsing is not modelled.
- numpy's int64 cells are not told apart from floats. Every
  number is a `Num`, so an int64 column shows and edits as a float column
  would.
- `int(nan)` raises in the source for a missing cell in
  an `id_` column. The model keeps the template's text there instead.
- Only the first `tariff_item/parameter_tuples` container of a document is
  modelled: the `find` calls of the source only ever reach the first.
- Duplicate column names in a DataFrame are not modelled. A row is a map from
  code to cell, so two columns with one name share a cell.
- The import's records are maps, so the insertion order of the
  source's dictionaries is not kept. Only the last value written under a key
  matters, and `RecordFields` states which one that is.
- MatrixImport.ExpandGrid: the cell reader is a parameter `clean`. It is
  proved for any reader, and `ProcessImport` fixes it to `Cleaned`, which is
  `clean_number` of the stripped text.
- NumberNormalizer.CleanNumberOf: stated for texts without surrounding
  whitespace. `Cleaned` strips first, so every cell of the grid is such a text.
- Qt is left out: signals (`dataChanged`, `invalidateFilter`), dialogs,
  message boxes, widgets, `rowCount`/`columnCount`, `headerData` and `flags`.
  A warning or error box is an `ImportOutcome`, and the dialog's accept is the
  `Imported` outcome.
- TableModels.PandasModel.SetData: requires an index inside the table for
  the edit role. The source calls `iloc` with it, and an index outside the
  table raises an `IndexError` that the source does not catch.
- TableModels.FilterProxyModel.SetFilterByColumn: the allowed values are
  texts. The only caller passes the labels of the filter's check boxes, so
  `str(v)` is `v`.
- The filters are visited in any order rather than in insertion order. The
  result is the same either way.
