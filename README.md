# Budget conversion model

This project models the conversion at the heart of `app.py`. The input is
the raw, header-less grid of a Thai budget report. The output is
a normalised table with one row per budget line:

- the budget year;
- the group code and group label;
- the expense code and expense detail;
- the amount columns, copied through.

The model follows the program's stages, one module per stage:

- `Strings`: Python's `str.isspace`, `strip`, `split()` and `" ".join`.
- `Cells`: a cell is `Missing` (NaN), `Text` or `DateLike`; a sheet is rows of cells and a width.
- `Years`: `extract_year_from_value` and `extract_year`. The probe of cell (5, 0) comes first. Failing that, a row-major scan of the top-left `min(25, rows)` by `min(6, cols)` region runs; it is a method with nested loops, proved equal to a pure specification.
- `Frames`: a pandas DataFrame without its index. It offers look-up by name (first column of that name), column assignment, row filtering in order, column drop and order-preserving projection.
- `Header`: lines 71-89. Rows 0-8 and the stray row are dropped. Raw row 9 becomes the header, stripped twice. The data rows are raw rows 11 onwards. The constant `Year` column is added and `RENAME_MAP` is applied. A missing `Budget_Account` is a failure.
- `Groups`: lines 91-118. The account text is normalised. A hand-written recogniser handles the two group-marker patterns. The forward fill is a one-pass loop carrying the last capture, proved equal to "the capture of the nearest marker at or above". Marker rows and rows without an account are then dropped.
- `Fields`: lines 120-132. The account text is split into `Expense_Code` (the first word, missing when there is none) and `Expense_Detail` (the other words joined by single spaces). The account column is dropped, and the `desired` column order is fixed.
- `Pipeline`: `convert_budget` in two forms. `Convert` is a function of the sheet. `ConvertBudget` is a method that reassigns the table stage by stage, as the source does, and is proved equal to `Convert`. Lemmas then describe the output end to end, in terms of the raw sheet.

The conversion fails exactly when the sheet has fewer than 10 rows (`df.iloc[0]` of an empty frame raises) or when no header cell renames to `Budget_Account` (the `KeyError` of line 89). Both are modelled as `Failure` values.

The marker patterns (app.py:106, 108) accept only the letter `G` before the three digits, and so does `Groups.MatchMarker`.

## Model

| member | source | states |
|---|---|---|
| Strings.Strip | app.py:76-80 | The result has no whitespace at either end. Stripping text that has none changes nothing, so the second strip of the header names is a no-op. |
| Strings.StripKeepsMiddle | app.py:76-80 | `strip` removes whitespace at the two ends and nothing else. The result is a contiguous piece of the input, and everything before and after it is whitespace. |
| Strings.ReplaceNbsp | app.py:94 | Every non-breaking space becomes a plain space. Every other character is unchanged, and no non-breaking space remains. |
| Strings.Split | app.py:122 | Every token of `str.split()` is non-empty and free of whitespace. |
| Strings.SplitSeparates | app.py:122 | The text is its tokens interleaved with runs of whitespace, and every run between two tokens is non-empty, so each token is a maximal run of non-whitespace. |
| Strings.SplitKeepsText | app.py:122 | `split()` loses only whitespace: the tokens concatenated are exactly the non-whitespace characters of the text, in order. |
| Strings.SplitJoinRoundTrip | app.py:123 | Splitting a single-space join of tokens gives back the same tokens. |
| Years.ShowYear | app.py:25-28 | `str(y)` of a four-digit year is four digits denoting `y`. |
| Years.FirstYearFrom | app.py:33 | The position found is where `(19\|20)\d{2}` matches, with no match between the start and it; "none" means there is no match at all. |
| Years.SearchYear | app.py:32-34 | `re.search` gives "" exactly when the pattern occurs nowhere. Otherwise it gives the text of the leftmost match: four digits naming a year in [1900, 2099]. |
| Years.YearFromCell | app.py:19-34 | The result is "" or a four-digit year in [1900, 2100]. An empty cell gives "". A date with its year in range gives that year. Any other cell gives the first pattern match in its text. |
| Years.ScanFrom | app.py:47-55 | The scan yields "" or a four-digit year in [1900, 2100]. |
| Years.ScanFindsFirst | app.py:47-55 | The scan from a cell returns the year of the first yielding cell at or after it, in row-major order. It returns "" exactly when no cell there yields one. |
| Years.ExtractYearSpec | app.py:37-55 | The result is "" or a year. It is the probe cell's year when that cell has one. Otherwise it is the year of the first yielding cell of the region in row-major order, and "" only when no cell of the region yields one; a sheet too small for the probe does not fail. |
| Years.ExtractYear | app.py:37-55 | The nested row and column loops with early returns compute exactly `YearOf`, the probe-then-scan specification. |
| Frames.FirstIndex | app.py:88 | The position found holds the name, and no earlier position does. "None" means the name is absent. |
| Frames.Lookup | app.py:88 | `df[n]` exists exactly when `n` is a column name. It holds one value per row, and its values are those of the first column named `n`. |
| Frames.SetColumn | app.py:83 | `df[n] = vals` replaces column `n` in place, or appends it at the right. Afterwards `n` holds `vals`, and every other name looks up as before. |
| Frames.Kept | app.py:118 | The positions a mask keeps are every kept row and only kept rows, in ascending order. |
| Frames.DropRows | app.py:118 | Row filtering keeps the names. It keeps exactly the masked rows, in order, in every column. |
| Frames.DropColumn | app.py:124 | `drop(columns=[n])` removes `n`, and every other name looks up as before. |
| Frames.Present | app.py:132 | `[d for d in ds if d in names]` holds exactly the members of `ds` that are in `names`. |
| Frames.PresentInOrder | app.py:132 | The list keeps the order of `ds`: its entries are `ds` at the ascending positions whose name is in `names`, and at no others. |
| Frames.PresentByMembership | app.py:132 | The projection list depends only on which desired names are present. |
| Frames.ProjectColumnsSpec | app.py:132 | The projected columns are the desired names that exist, in desired order. Each holds its values, and no other name is left. |
| Frames.Project | app.py:132 | `df[[...]]`: the names are the present desired names in desired order. Desired names keep their values, and every other name is gone. |
| Header.RenameToAccount | app.py:9-16 | A name renames to `Budget_Account` exactly when it is the Thai account-code label or already `Budget_Account`. |
| Header.RenameKeepsYear | app.py:9-16 | No label is renamed to `Year`, and `Year` itself is kept. |
| Header.RenameIdempotent | app.py:9-16 | Renaming twice is renaming once, because no canonical name is itself a source label. A name that is not a label is kept. |
| Header.RenameColumns | app.py:86 | `rename(columns=RENAME_MAP)` maps every name through the map and keeps every column's values and position. |
| Header.PromoteHeader | app.py:72-80 | Setting the header fails exactly when the sheet has fewer than 10 rows. Otherwise column `c` is named after raw row 9's cell, as text and stripped, and holds raw rows 11 onwards of column `c`, in order. |
| Header.DropsLeaveDataRows | app.py:72-73 | After dropping rows 0-8 and then position 1, the first row left is raw row 9 and the rest are raw rows 11 onwards. Nothing is left when there are fewer than 10 rows. |
| Header.PromotedFrame | app.py:76-80 | The table built from raw row 9 and the data rows has one stripped name and one data column per raw column. |
| Header.HeaderValues | app.py:86-88 | A canonical name has data exactly when some raw header cell renames to it, and then it has one value per data row. |
| Header.HeaderValuesAre | app.py:86-88 | The data under a canonical name is that of the first raw column renaming to it: its cells in raw rows 11 onwards, in order. |
| Header.NormaliseHeader | app.py:72-89 | Failure exactly when there is no header row or no `Budget_Account`, with the matching error. On success, `Year` is the year on every data row, and any other name holds the data of the first raw column that renames to it. |
| Header.NormaliseHeaderNames | app.py:83-88 | After the header stage `Year` is a column, and any other name is a column exactly when a raw header cell renames to it. |
| Header.RenamedNames | app.py:83-86 | After adding `Year` and renaming, the names are the renamed header, followed by `Year` when the header had none. |
| Groups.NormaliseAccount | app.py:92-96 | The normalised account is missing exactly when the cell is empty. Otherwise it is the cell's text with every non-breaking space made a plain space and then stripped, so it has no whitespace at either end and no non-breaking space. |
| Groups.MatchMarker | app.py:105-110 | A recognised marker starts with `G` and three digits. The code is a prefix of the text, with the `_suffix` only when the suffix is kept. The label is a suffix of the text: non-empty, with no line break and no whitespace at either end. |
| Groups.MarkerRoundTrip | app.py:105-110 | Every text of the marker shape (code, optional suffix, optional whitespace around `:`, label) is recognised. The capture is the code, with or without the suffix by mode, and the label. |
| Groups.MarkerParts | app.py:105-110 | Conversely, every recognised text is of the marker shape, and the capture is made of its parts. |
| Groups.SuffixModeExample | app.py:99-108 | `G501_1 : something` has code `G501_1` when the suffix is kept and `G501` when it is not, with label `something` in both modes. |
| Groups.MarkerModesAgree | app.py:105-108 | Both modes recognise the same rows and capture the same label. The short code is the first four characters of the long one. |
| Groups.Captures | app.py:110-111 | Row `i`'s capture is the marker match of its normalised account. |
| Groups.FilledAtIsNearestMarker | app.py:113-114 | After the forward fill, a row has the capture of the nearest marker at or above it. It has nothing exactly when no marker precedes it. |
| Groups.ForwardFill | app.py:113-114 | The one-pass loop carrying the last capture computes the forward fill of every row. |
| Groups.BlankedAccount | app.py:116-117 | The blanked account is present exactly when the row survives: it has an account and is not a marker. |
| Groups.Regrouped | app.py:113-117 | `Budget_Code` and `Budget_Type` hold the filled captures, and `Budget_Account` is blanked on marker rows. Every other column is unchanged, and no column is lost. |
| Groups.ApplyGroupsSpec | app.py:113-118 | After the drop, the survivors are kept in order. Each carries its group's code and label and its normalised account. The other columns are the survivors' rows of the input. |
| Fields.ExpenseFieldsSpec | app.py:121-123 | No code exactly when the text has no non-whitespace character, and then the detail is "". Otherwise the code is one word, and the code plus the detail's non-whitespace is all the text's non-whitespace. Splitting the detail gives the other words. The detail is "" exactly for a single word. With two or more words, code + " " + detail is the words joined by single spaces. |
| Fields.SplitAccount | app.py:121-123 | An empty cell gives two empty cells. A stripped text gives the expense code, missing when there is no word, and the expense detail. |
| Fields.AddExpenseFieldsSpec | app.py:120-124 | The account column is gone and the two expense columns hold the split of every account cell. Every other column is unchanged. |
| Fields.DesiredOmitsAccount | app.py:127-132 | The account column is never part of the output. |
| Pipeline.Convert | app.py:67-134 | The conversion fails exactly when the sheet has fewer than 10 rows or no header cell names `Budget_Account`, with the matching error. A success is a well-formed table. |
| Pipeline.ConvertBudget | app.py:67-134 | The stage-by-stage procedure, with the loop-based year search and forward fill, computes exactly `Convert`. |
| Pipeline.OutputRows | app.py:116-118 | The output's data rows are exactly those whose account is present and not a group marker, in their original order. |
| Pipeline.BlankAccountKept | app.py:116-123 | A present account that is blank after normalisation is kept. It has no `Expense_Code` and an empty `Expense_Detail`. |
| Pipeline.ConvertColumns | app.py:126-132 | The output columns are the `desired` names present, in `desired` order. The five derived columns are always among them. |
| Pipeline.ConvertRows | app.py:116-118 | The output has one row per surviving data row. |
| Pipeline.ConvertYear | app.py:83 | `Year` holds the sheet's extracted year on every output row. |
| Pipeline.ConvertDerived | app.py:110-123 | On each output row, `Budget_Code` and `Budget_Type` are the code and label of the nearest marker at or above its data row. `Expense_Code` and `Expense_Detail` are the split of its normalised account. |
| Pipeline.ConvertAmounts | app.py:85-132 | Each amount column the header names holds that column's raw cells on the output rows, in order. An amount column the header does not name is absent. |

## Left out

- Reading the workbook (`read_excel_any`, app.py:58-64) and writing it (`to_excel_bytes`, app.py:137-141) are file I/O. The model starts from the grid the reader returns and ends with the table.
- The Streamlit page and its error reporting (app.py:144-169) are user interface.
- pandas dtype coercion and the `str()` rendering of numbers and floats are not modelled. A cell is `Missing`, already-rendered `Text`, or `DateLike` with its year and its rendering. An empty cell renders as "nan".
- The amount columns (Budget, PR/Reserved_Budget, Accured/Paid, Remaining_Balance, Spent%) are copied as opaque cells; their numeric content is not interpreted.
- `\d` is ASCII digits only. Python's `re` also accepts other Unicode decimal digits, including Thai digits, in the year pattern and the marker pattern.
- Groups.MatchMarker: the general `re` engine is replaced by a recogniser for the two marker patterns. It is defined on stripped text only, because the code only applies the patterns to stripped text (lines 95 and 110).
- Duplicate column names are not modelled as pandas treats them: a look-up takes the first column of that name, while pandas would return several columns.
- The pandas row index and `reset_index` are not modelled. Tables are column sequences with a height, and rows are identified by position.
- The text of the `KeyError` message and the `IndexError` raised for short sheets are not modelled. Each failure is a `ConvertError` value.
