# drive2excel pipeline: the table normaliser and the spreadsheet merge

The pipeline gathers the PDF files of a Google Drive folder and extracts the tables in them. It cleans those tables into one fixed ten-column layout and writes every row to a single spreadsheet. This project models the two functions that make up the data path:

- **`pdf_to_dataframe`** (the normaliser) takes the tables the table detector finds in one file and works on them in this order:
  - it stacks them (`pd.concat`);
  - it drops the rows whose cells are all missing;
  - it relabels the columns with the nine-name schema, which raises unless there are exactly nine columns;
  - it drops the rows whose City cell is `"Full Amount"`;
  - it adds a `Source_File` column holding the file's base name and moves that column to the front.

  When no table is found, or when any step raises, the result is the empty data frame.
- **`merge_pdfs_to_excel`** (the merge) runs the normaliser on every path in order and keeps the non-empty results. It then writes their concatenation once, or reports that no valid data was found.

The model works on values. A data frame is a list of column labels plus rectangular rows of cells, and a cell is `Option<string>`, where `None` is pandas' missing value. Every pandas step that can raise returns a `Result`.

Files:
- `sequences.dfy`: the generic filter, map and subsequence facts.
- `paths.dfy`: `os.path.basename`.
- `frames.dfy`: the pandas operations the normaliser uses.
- `normaliser.dfy`: the normaliser.
- `merge.dfy`: the merge.

Behaviour:
- **The table detector is not modelled.** For the normaliser, its outcome for a file is a `Detection` value: the tables found, or the exception raised. For the merge, it is a function `read` from path to `Detection`.
- **The spreadsheet write and the messages are not modelled either.** They are summed up by the `Outcome` value: `Written(outputFile, table)` or `NoValidData`.

Two behaviours of the code are worth spelling out:
- **Tables whose stacked width is not nine.** Such tables do not misalign data silently. Relabelling a frame that is not nine columns wide raises a length mismatch. The `except` catches it, so the file yields the empty frame (`WrongWidthGivesEmptyFrame`). Misalignment can still occur in one case: a file whose widest table has nine columns and whose other tables are narrower. Stacking pads the narrower tables with missing cells on the right (`Frames.Concat`).
- **Header removal.** It tests the City column (the first one) against `"Full Amount"`. A row that repeats the labels verbatim has `"City"` in that column and is kept. A data row whose City cell reads `"Full Amount"` is dropped (`HeaderFilterLooksAtCity`).

## Model

| member | source | states |
|---|---|---|
| Normaliser.PdfToDataFrame | drive2excel_pipeline_col.py:57-93 | A detector exception, or a detection with no tables, gives the empty frame |
| Normaliser.Normalise | drive2excel_pipeline_col.py:68-87 | The chain of table steps, which stops at the first step that raises. Its outcome is stated by `NormaliseNineColumns` (success with the tagged clean rows at width nine) and `NormaliseOtherWidth` (a length mismatch at any other width) |
| Normaliser.PdfToDataFrameIsExpected | drive2excel_pipeline_col.py:61-93 | The normaliser equals an independent definition (`Expected`). The chain fails exactly when the stacked tables are not nine columns wide. Otherwise it yields the stacked rows that are neither all-missing nor header rows, in order, each prefixed with the file's base name, under `Source_File` followed by the nine schema labels |
| Normaliser.NormaliseNineColumns | drive2excel_pipeline_col.py:68-89 | On nine-column tables every step of the chain succeeds, with the tagged clean rows under the output columns |
| Normaliser.NormaliseOtherWidth | drive2excel_pipeline_col.py:75-77 | On tables of any other width the relabelling raises a length mismatch naming both counts |
| Normaliser.CleaningSteps | drive2excel_pipeline_col.py:72-80 | On nine-column tables, dropping all-missing rows and then header rows is the same as one filter for rows that are both non-blank and not headers |
| Normaliser.TagAndReorder | drive2excel_pipeline_col.py:83-87 | Adding `Source_File` and moving it to the front gives the columns `[Source_File] + labels`. Each row becomes the base name followed by its own cells |
| Normaliser.SelectProvenanceFirst | drive2excel_pipeline_col.py:86-87 | Selecting `Source_File` and then the other labels succeeds and moves the last cell of every row to the front |
| Normaliser.ReorderedColumns | drive2excel_pipeline_col.py:86 | The list comprehension puts `Source_File` first, followed by the other labels in their original order |
| Normaliser.SchemaLabels | drive2excel_pipeline_col.py:75-77 | The nine schema labels and `Source_File` are pairwise distinct |
| Normaliser.IndexOfDistinct | drive2excel_pipeline_col.py:80 | Among distinct labels, a label is looked up at its own position |
| Normaliser.CleanRows | drive2excel_pipeline_col.py:69-80 | Each clean row has the stacked width |
| Normaliser.Tag | drive2excel_pipeline_col.py:83-87 | Tagging keeps the number of rows and prefixes each row with the name |
| Normaliser.CleanRowsFilterOnly | drive2excel_pipeline_col.py:72-80 | The clean rows are a subsequence of the stacked rows (values and order kept). Every one is clean, no row occurs more often than among the stacked rows, and each clean stacked row occurs exactly as often, so repeated identical data rows are all kept |
| Normaliser.NormalisedRows | drive2excel_pipeline_col.py:57-93 | A normalised frame is empty or has the ten output columns. Each row has ten cells: the first is the file's base name, the other nine are not all missing, and the City cell is not `"Full Amount"` |
| Normaliser.NormalisedRowsAreCleanRows | drive2excel_pipeline_col.py:68-89 | For a detection of tables, the data cells of the rows are exactly the clean rows when the width is nine. For any other detection the frame is empty |
| Normaliser.WrongWidthGivesEmptyFrame | drive2excel_pipeline_col.py:75-77 | A stacked width other than nine gives the empty frame, because the exception is caught |
| Normaliser.EmptyMeansNoRows | drive2excel_pipeline_col.py:64-65 | `df.empty` holds exactly when the frame has no rows. A file yields rows exactly when tables were detected, they are nine wide and one of them has a clean row |
| Normaliser.OneTable | drive2excel_pipeline_col.py:68-87 | With one nine-column table, the rows are that table's clean rows, in order, tagged with the base name |
| Normaliser.OneTableCleanRows | drive2excel_pipeline_col.py:68-72 | Stacking a single table changes nothing |
| Normaliser.HeaderFilterLooksAtCity | drive2excel_pipeline_col.py:80 | For one table holding a verbatim repeated label row and a row whose City is `"Full Amount"`, only the label row survives |
| Frames.MaxWidth | drive2excel_pipeline_col.py:69 | The stacked width bounds every table's width, is reached by one of them, and is 0 when there are none |
| Frames.Pad | drive2excel_pipeline_col.py:69 | A row shorter than the stacked width keeps its cells and gets missing cells for the labels it lacks |
| Frames.PadRows | drive2excel_pipeline_col.py:69 | Padding applies to every row and keeps the row count |
| Frames.StackRows | drive2excel_pipeline_col.py:69 | The rows of the tables one after another, each padded to the common width. Characterised by `StackRowsAppend` (order), `StackRowsSingle` (one table), `StackRowsCount` (no row lost or added) and `StackRowsWidth` (every row has the common width) |
| Frames.StackRowsWidth | drive2excel_pipeline_col.py:69 | Every stacked row has exactly the stacked width |
| Frames.Concat | drive2excel_pipeline_col.py:68-69 | The concatenation is as wide as the widest table and holds the rows of each table in turn, padded |
| Frames.StackRowsAppend | drive2excel_pipeline_col.py:69 | Stacking `a + b` stacks `a` and then `b` |
| Frames.StackRowsCount | drive2excel_pipeline_col.py:69 | The row count of the concatenation is the sum of the tables' row counts |
| Frames.StackRowsSingle | drive2excel_pipeline_col.py:69 | Stacking one table gives that table's rows, padded |
| Frames.EmptyFrame | drive2excel_pipeline_col.py:64-65 | `pd.DataFrame()` (also at line 93): no columns and no rows. Every failure path of the normaliser returns it (`PdfToDataFrame`, `WrongWidthGivesEmptyFrame`) |
| Frames.IsEmpty | drive2excel_pipeline_col.py:104 | `df.empty`: no columns or no rows. For a normalised frame this is exactly "no rows" (`EmptyMeansNoRows`) |
| Frames.DropAllMissing | drive2excel_pipeline_col.py:72 | Keeps the width and exactly the rows with some non-missing cell, in order |
| Frames.SetColumns | drive2excel_pipeline_col.py:75-77 | Succeeds exactly when there is one label per column, keeping the rows. Otherwise it fails with a length mismatch naming both counts |
| Frames.IndexOf | drive2excel_pipeline_col.py:80 | The first position holding the label, or the length exactly when the label is absent |
| Frames.IndexOfAppend | drive2excel_pipeline_col.py:83 | A label appended to a list lacking it is found at the end |
| Frames.DropWhereEquals | drive2excel_pipeline_col.py:80 | Fails with a KeyError naming the key exactly when the key column is missing. Otherwise it keeps the columns and the rows whose key cell differs from the value; a missing cell differs |
| Frames.AssignConstant | drive2excel_pipeline_col.py:83 | Keeps the row count. A new column is appended with the value in every row, the other cells unchanged. An existing column is overwritten and every other cell is kept. Either way every row holds the value under the key |
| Frames.Select | drive2excel_pipeline_col.py:86-87 | Succeeds exactly when every requested label exists. The result has the requested columns, the same row count, and each cell is taken from the named column |
| Paths.RFind | drive2excel_pipeline_col.py:83 | The last position of the character, or -1 when it does not occur |
| Paths.Basename | drive2excel_pipeline_col.py:83 | The base name is a `/`-free suffix of the path that is either the whole path or preceded by `/` |
| Paths.BasenameUnique | drive2excel_pipeline_col.py:83 | Those three facts determine the base name |
| Paths.BasenameOfJoin | drive2excel_pipeline_col.py:46 | The base name of `dir/file` is the base name of `file`, whatever `file` holds. When `file` holds no `/`, it is `file` itself, so the `Source_File` cell of a downloaded file is its Drive file name |
| Sequences.Filter | drive2excel_pipeline_col.py:80 | Every element of the result passes and comes from the input, every passing element of the input is in the result, and the result is no longer than the input |
| Sequences.FilterMultiset | drive2excel_pipeline_col.py:72-80 | The result holds no element more often than the input, and each passing element exactly as often as the input |
| Sequences.FilterSubMultiset | drive2excel_pipeline_col.py:72-80 | The result holds no element more often than the input |
| Sequences.FilterCount | drive2excel_pipeline_col.py:72-80 | A passing element occurs in the result exactly as often as in the input |
| Sequences.FilterIsSubsequence | drive2excel_pipeline_col.py:72-80 | A filter only deletes: the survivors keep their values and order |
| Sequences.FilterConcat | drive2excel_pipeline_col.py:102-105 | Filtering distributes over concatenation |
| Sequences.FilterKeepsAll | drive2excel_pipeline_col.py:86 | A filter that everything passes is the identity |
| Sequences.FilterAgree | drive2excel_pipeline_col.py:80 | Filters whose predicates agree on the elements give the same result |
| Sequences.FilterFilter | drive2excel_pipeline_col.py:72-80 | Two filters in a row keep the elements that pass both |
| Sequences.Map | drive2excel_pipeline_col.py:102-103 | One image per element, in order |
| Sequences.MapAppend | drive2excel_pipeline_col.py:102-103 | Mapping distributes over concatenation |
| Sequences.MapFilterSnoc | drive2excel_pipeline_col.py:102-105 | One more loop step appends that element's image exactly when it passes |
| Merge.MergePdfsToExcel | drive2excel_pipeline_col.py:96-112 | The loop keeps exactly the non-empty per-file frames, in path order. The outcome equals `MergeOutcome`: a write to `outputFile` of their concatenation, with the ten output columns, when there is one; otherwise "no valid data" |
| Merge.MergeOutcome | drive2excel_pipeline_col.py:100-112 | The outcome of a run: a write of the concatenated non-empty frames to the output file, or "no valid data". Characterised by `NoDataIffAllEmpty` (when nothing is written), `MergedRows` (what is written) and `MergedRowsProvenance` (where each written row comes from) |
| Merge.KeptSnoc | drive2excel_pipeline_col.py:102-105 | Normalising one more path appends its frame to the kept frames exactly when that frame is not empty |
| Merge.Results | drive2excel_pipeline_col.py:102-103 | One normalised frame per path |
| Merge.ResultsAt | drive2excel_pipeline_col.py:103 | The i-th frame is the normaliser applied to the i-th path |
| Merge.ResultsAppend | drive2excel_pipeline_col.py:102-103 | Processing `a + b` processes `a` and then `b` |
| Merge.AllRows | drive2excel_pipeline_col.py:108 | The rows of the frames one frame after another. Characterised by `AllRowsCount` (the row count is the sum), `AllRowsAppend` (order) and `AllRowsMember` (every row comes from one of the frames) |
| Merge.AllRowsCount | drive2excel_pipeline_col.py:108 | The number of concatenated rows is the sum of the frames' row counts |
| Merge.AllRowsAppend | drive2excel_pipeline_col.py:108 | Concatenation distributes over appending lists of frames |
| Merge.AllRowsMember | drive2excel_pipeline_col.py:108 | Every concatenated row is a row of one of the frames |
| Merge.ConcatFrames | drive2excel_pipeline_col.py:108 | Concatenating frames with the same columns keeps those columns and holds every row of every frame, in order |
| Merge.NonEmptyResultsShareColumns | drive2excel_pipeline_col.py:104-108 | Every kept frame has the ten output columns, so the concatenation introduces no new column |
| Merge.FilterEmptyIsEmpty | drive2excel_pipeline_col.py:104-107 | No frame is kept exactly when every frame is empty |
| Merge.NoDataIffAllEmpty | drive2excel_pipeline_col.py:107-112 | "No valid data" is reported exactly when every file yields an empty frame, in particular when there are no paths |
| Merge.DroppingEmptyKeepsRows | drive2excel_pipeline_col.py:104-105 | Leaving out empty frames loses no row |
| Merge.EmptyResultsHaveNoRows | drive2excel_pipeline_col.py:104 | An empty per-file frame has no rows |
| Merge.MergedRows | drive2excel_pipeline_col.py:100-109 | The written table goes to `outputFile` with the output columns. It holds every row of every file's frame, in path order, so its row count is the sum of theirs |
| Merge.MergedRowsAppend | drive2excel_pipeline_col.py:102-108 | Merging `a + b` gives the rows of `a` before those of `b` |
| Merge.MergedRowsProvenance | drive2excel_pipeline_col.py:83-108 | Every written row has ten cells and starts with the base name of one of the input paths. Its nine data cells are not all missing, and its City cell is not `"Full Amount"` |

## Left out

- `authenticate_drive`, `list_pdfs_in_folder`, `download_pdf` and `main` (lines 13-54, 115-139) are OAuth, Google Drive API and file I/O. `BasenameOfJoin` documents what the `Source_File` cell of a downloaded file holds: the part of its Drive file name after the last `/`, which is the whole name when the name holds no `/`. No other lemma depends on it.
- BasenameOfJoin: models `os.path.join(download_path, file_name)` as `download_path + "/" + file_name`. `os.path.join` differs when the directory already ends in `/` or the file name is absolute, but in both cases the base name is still that of the file name.
- `camelot.read_pdf` (line 62) is an input. The model does not capture how tables are found in a PDF or what `strip_text` removes.
- `to_excel` (line 109) and the `print` calls (lines 92, 110, 112, 128) are summed up by the `Outcome` value. The model does not capture the spreadsheet encoding or the diagnostic text. Lines 107-112 have no `try`, so a write that raises escapes `merge_pdfs_to_excel`. Examples are an unwritable output path, or more rows than one sheet holds. The model has no outcome for such a failure: `Written` means the table was handed to the writer.
- Cells are `Option<string>`. pandas dtypes, NaN-versus-empty-string distinctions the detector may make, and index labels are not modelled. `ignore_index=True` makes the index irrelevant.
- Merge.ConcatFrames: models `pd.concat` only for frames with the same columns. Those are the only frames the merge passes to it (`NonEmptyResultsShareColumns`).
- Frames.Select: resolves a duplicated label to its first column, whereas pandas returns every column with that label. Duplicate labels never reach it here (`SchemaLabels`).
- Frames.AssignConstant: overwrites only the first column carrying the key, whereas pandas overwrites every column with that label. Duplicate labels never reach it here (`SchemaLabels`), and at line 83 the key `Source_File` is never already present, so only the append case occurs.
- Frames.DropWhereEquals: looks up the key in the first column that carries it, for the same reason.
- `pdf_to_dataframe` on the same input always gives the same frame, because the model is a function of the path and the detection. Repeatability of the detector itself is not modelled.
