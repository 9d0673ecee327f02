# Auto.EDA analysis pipeline: a Dafny model

This project models the `/api/analyze` request of the Auto.EDA backend
(`backend/main.py`). The request works as follows:

1. It reads an uploaded table, choosing the reader by the file's extension.
2. It caps the table at 5000 sampled rows.
3. It asks a language model for three things: a summary, a chart type per
   column, and some column pairs.
4. It recovers JSON from the model's Markdown-fenced replies.
5. It draws one chart per usable suggestion.
6. It assembles the report: counts, column details, a preview and the two
   lists of graphs.

The model has one module per part of that file:

| module | models |
|---|---|
| `Common` | Option/Result, bytes, ASCII lower-casing, decimal text of an integer |
| `Tables` | the DataFrame as columns of cells; `head`, row selection, the 5000-row cap, null counts and `nunique` |
| `JsonValues` | the values `json.loads` yields and the text Python's `str()` gives them |
| `Loading` | `load_data_from_file`: `str.split`/`join`, the extension, the reader choice and the error wrapping |
| `Recovery` | `clean_json_response`: the `re.sub` fence deletion, `str.strip`, and the `{}` fallback |
| `ColumnMetadata` | the metadata dict comprehension sent with the per-column prompt |
| `Dispatch` | the univariate and pairwise chart loops: filtering, the label if/elif chains, titles, skipping on failure |
| `Reporting` | `analyze_dataset` as a whole: the order of the oracle calls, where the request fails, and the report's shape |

The collaborators the handler calls are parameters of the model, bundled in
`Reporting.Services`:

- `read`: the pandas reader of a format;
- `sample`: the row positions `df.sample(5000)` picks;
- `ask`: the language model, answering a prompt or raising;
- `decode`: `json.loads`;
- `render`: matplotlib/seaborn drawing plus `plot_to_base64`, giving the
  Base64 text or failing.

The chart loops are methods with `for` loops, proved equal to recursive
specification functions. The lemmas are stated about those functions.

### Failure paths and titles as the code has them

- **Unsupported extension.** Line 64 raises `HTTPException(400, ...)` inside
  the `try` of lines 50-70. The `except Exception` at line 69 catches it and
  raises a 500. The client gets a 500 whose detail is
  `"Error reading file: 400: Unsupported file format"`. See
  `Loading.UnsupportedExtensionIs500` and `Reporting.UnsupportedUploadIs500`.
- **Quota exhaustion.** The handler for `ResourceExhausted` with status 429
  (lines 249-252) follows `except Exception` (line 246), which catches
  everything first, so that handler never runs. The oracle calls at lines
  172, 176 and 214 are not guarded, so a quota error reaches the client as
  the server's plain 500. See `Reporting.QuotaExhaustedIs500` and the first
  `ensures` of `Reporting.Analyze`.
- **Univariate titles.** The chart is titled `"<label>: <col>"` (line 201),
  but the record is titled `"<label> of <col>"` (line 205). See
  `Dispatch.UniTitlesDiffer`.
- **Unrecognised label.** A label outside the if/elif chain (lines 185-199)
  draws nothing. The empty canvas is still encoded and appended, so such an
  entry yields a graph. See `Dispatch.UnivariateOnePerKeptEntry`.
- **Reply that is not an object.** A recovered reply that is not a JSON
  object makes `.items()` (lines 178, 216) raise outside any `try`. The
  request ends in a 500.
- **Unhashable cell.** A list, dict or array cell makes `nunique()` in the
  metadata (line 104) raise after the summary call. The request ends in a
  500. See `Reporting.UnhashableCellIs500`.
- **Table without columns.** `df.describe()` (line 264) raises on such a
  table, so the request ends in a 500.

## Model

| member | source | states |
|---|---|---|
| `Loading.Split` | backend/main.py:53 | `str.split`: never an empty list, no piece contains the separator, and joining the pieces with it gives the text back |
| `Loading.SplitJoin` | backend/main.py:53 | splitting a join of separator-free pieces gives the pieces back |
| `Loading.ExtensionOfDottedName` | backend/main.py:53 | the extension of `base + "." + ext` is the lower-cased `ext` whatever the base |
| `Loading.ExtensionOfUndottedName` | backend/main.py:53 | a name without a dot is its own extension, lower-cased |
| `Loading.LoadData` | backend/main.py:48-70 | every error has status 500 and a detail starting `"Error reading file: "`; success exactly when the extension is one of the five accepted and the chosen reader succeeds, with the reader's table |
| `Loading.UnsupportedText` | backend/main.py:64 | `str()` of the unsupported-format exception is `"400: Unsupported file format"` |
| `Loading.UnsupportedExtensionIs500` | backend/main.py:53-70 | an unaccepted extension fails with 500 and detail `"Error reading file: 400: Unsupported file format"` |
| `Loading.LoadByExtension` | backend/main.py:53-62 | the outcome for `base.ext` depends neither on the base nor on the ASCII case of the extension |
| `Recovery.StripFences` | backend/main.py:82 | the leftmost-first deletion of "```json" and "```" never lengthens the text |
| `Recovery.StripLeavesNoFence` | backend/main.py:82 | after the deletion no "```" is left, including none formed by gluing the remains together |
| `Recovery.StripFenceFree` | backend/main.py:82 | text without "```" passes through unchanged |
| `Recovery.StripIdempotent` | backend/main.py:82 | deleting twice is deleting once |
| `Recovery.StripClosingFence` | backend/main.py:82 | a trailing "```" after backtick-free text is removed and nothing else changes |
| `Recovery.FencedBlock` | backend/main.py:82 | a backtick-free body inside a ```json … ``` block comes out as it went in |
| `Recovery.TrimStart` | backend/main.py:82 | a suffix of the text, with only whitespace removed, starting at a non-space |
| `Recovery.TrimEnd` | backend/main.py:82 | a prefix of the text, with only whitespace removed, ending at a non-space |
| `Recovery.Trim` | backend/main.py:82 | `str.strip()`: a slice of the text with only Python whitespace outside it, and non-space at both ends |
| `Recovery.CleanJsonResponse` | backend/main.py:80-86 | the decoder's value for the cleaned text, or `{}` when decoding fails |
| `Recovery.FencedReplyDecodesAsBare` | backend/main.py:80-86 | a reply wrapped in a ```json fence decodes exactly as the bare reply does |
| `Tables.Names` | backend/main.py:150 | the column names in table order |
| `Tables.SelectRows` | backend/main.py:169 | the table with the picked rows in pick order, with the same columns, names and dtypes |
| `Tables.Head` | backend/main.py:99 | the first min(n, rows) rows, cell for cell, with the same column names |
| `Tables.CapRows` | backend/main.py:168-169 | min(rows, 5000) rows; a table of at most 5000 rows is untouched; a larger one keeps exactly the sampled rows, with the same names and dtypes |
| `Tables.CountMissing` | backend/main.py:260 | the null count never exceeds the column's length |
| `Tables.DistinctMembers` | backend/main.py:261 | a value is counted by `nunique` exactly when some hashable non-null cell holds it |
| `Tables.DistinctBound` | backend/main.py:260-261 | nulls plus distinct values never exceed the number of rows |
| `Tables.CountMissingIsNullCount` | backend/main.py:260 | the null count is the number of positions holding a null |
| `Tables.NoMissingIff` | backend/main.py:260 | the null count is 0 exactly when no cell is null |
| `ColumnMetadata.Metadata` | backend/main.py:102-105 | keyed by exactly the column names; a column is categorical exactly when its dtype is `object`; the unique count is its number of distinct non-null values |
| `ColumnMetadata.MetadataOfColumns` | backend/main.py:102-105 | the comprehension over distinct column names maps each name to its own column's entry |
| `ColumnMetadata.NameSetSize` | backend/main.py:102-105 | distinct column names form a set as large as the column list |
| `ColumnMetadata.MetadataOnePerColumn` | backend/main.py:102-105 | one metadata entry per column |
| `Dispatch.UniGraphs` | backend/main.py:178-210 | one suggestion yields at most one graph |
| `Dispatch.RenderUnivariate` | backend/main.py:175-210 | the loop's list is the specification's list of univariate graphs |
| `Dispatch.UnivariateAtMostOneEach` | backend/main.py:178-210 | no more graphs than suggestions |
| `Dispatch.UnivariateRecords` | backend/main.py:178-207 | a graph is in the list exactly when some suggestion passes the filter, renders, and has that id, the title `"<label> of <col>"` and the data URI of its PNG |
| `Dispatch.UnivariateIdsAreColumns` | backend/main.py:179-207 | every univariate graph names a column of the table and carries a PNG data URI |
| `Dispatch.UnivariateOnePerKeptEntry` | backend/main.py:178-207 | with a renderer that never fails, the ids are exactly the keys that pass the filter, in mapping order, unrecognised labels included |
| `Dispatch.UniGraphsAgree` | backend/main.py:182-207 | what a suggestion yields depends only on the renderer's outcome for its own figure |
| `Dispatch.UnivariateFailureIsolated` | backend/main.py:208-210 | a suggestion whose rendering fails is as good as absent; every other graph is unchanged |
| `Dispatch.UniTitlesDiffer` | backend/main.py:201-205 | the record title differs from the title drawn on the chart |
| `Dispatch.PairGraphs` | backend/main.py:216-248 | one pair entry yields at most one graph |
| `Dispatch.RenderPairwise` | backend/main.py:213-252 | the loop's list is the specification's list of pairwise graphs, and the loop never fails |
| `Dispatch.PairFieldsOfList` | backend/main.py:218-222 | a list is kept exactly when it has at least three items and the first two name columns; it is drawn from those two with the third as label |
| `Dispatch.PairwiseAtMostOneEach` | backend/main.py:216-248 | no more graphs than pair entries |
| `Dispatch.PairwiseRecords` | backend/main.py:216-245 | a graph is in the list exactly when some kept pair renders and has that key, the title `"<label>: <x> vs <y>"` and the data URI |
| `Dispatch.PairwiseIdsAreKeys` | backend/main.py:241-245 | every pairwise graph is keyed by a pair key and carries a PNG data URI |
| `Dispatch.PairwiseOnePerKeptEntry` | backend/main.py:216-245 | with a renderer that never fails, the ids are exactly the kept keys, in order |
| `Dispatch.PairGraphsAgree` | backend/main.py:217-245 | what a pair yields depends only on the renderer's outcome for its own figure |
| `Dispatch.PairwiseFailureIsolated` | backend/main.py:246-248 | a pair whose rendering fails is as good as absent; every other graph is unchanged |
| `Reporting.Sampled` | backend/main.py:168-169 | min(rows, 5000) rows with the same column names; a small table is untouched |
| `Reporting.DetailOf` | backend/main.py:257-262 | name and dtype of the column; missing values = the number of null positions; unique values = the number of distinct non-null values; the two together never exceed the rows; no missing value exactly when no cell is null |
| `Reporting.ColumnDetails` | backend/main.py:255-262 | one entry per column, in column order |
| `Reporting.DetailsAgreeWithMetadata` | backend/main.py:102-105 | column_details agrees with the metadata sent to the model on unique counts and on the categorical kind |
| `Reporting.Preview` | backend/main.py:265 | min(5, rows) records; record k maps every column name, in order, to row k's cell, with nulls shown as `""` and other cells as their value |
| `Reporting.Items` | backend/main.py:178 | exactly the entries of the recovered object; none at all for an undecodable reply; a failure exactly when the recovered value is not an object |
| `Reporting.AnalyzeTable` | backend/main.py:171-278 | after loading, every failure (a model call, an unhashable cell, a reply that is not an object, no columns) is the server's 500; a report carries the file name, the row and column counts (at least one column), the column details and the preview |
| `Reporting.Analyze` | backend/main.py:154-278 | every failure has status 500; a load error is returned as is; a report has min(loaded rows, 5000) rows, the loaded column count and one detail per loaded column, by name, and min(5, rows) preview records |
| `Reporting.AnalyzeDataset` | backend/main.py:155-278 | the handler, step by step, gives the specification's response |
| `Reporting.AnalyzeSampled` | backend/main.py:171-278 | the steps after the row cap give the specification's response |
| `Reporting.CompletesIff` | backend/main.py:172-278 | the request completes exactly when the table has columns, every cell hashes, all three model calls answer, and both recovered replies are objects |
| `Reporting.UnhashableCellIs500` | backend/main.py:102-105 | a list, dict or array cell anywhere in the table ends the request in the server's 500 |
| `Reporting.QuotaExhaustedIs500` | backend/main.py:172 | a model that refuses every call for quota turns a loaded upload into the server's 500, never a 429 |
| `Reporting.UnsupportedUploadIs500` | backend/main.py:63-70 | an unaccepted extension fails the whole request with the wrapped 500 |
| `Reporting.UndecodableSuggestionsDrawNothing` | backend/main.py:83-86 | an undecodable per-column reply does not stop the request: it completes exactly when the table has columns, every cell hashes, the summary and pair calls answer and the pair reply is an object, and then has no univariate graph |
| `Reporting.GraphsOfReport` | backend/main.py:178-245 | in a completed report every univariate graph names a column, and every graph carries a PNG data URI |
| `Reporting.NoMissingCellsNoMissingValues` | backend/main.py:260 | a table without nulls reports zero missing values for every column |

## Left out

- The language model is a function of the prompt's data. The prompt wording, the system roles, the rendering of the prompt data as text, and the model's non-determinism are not modelled.
- The pandas readers are a parameter. Parsing CSV, Excel, JSON and Parquet is not modelled; a reader yields a table or the text of its exception.
- Which rows `df.sample` picks is a parameter. The model only requires 5000 distinct in-range positions.
- Drawing and encoding are a parameter: the renderer receives the plot kind, the title and the axis labels that each branch sets. The pixels, the Base64 encoding, and the closing of figures are not modelled.
- `numerical_stats` (`describe().round(2)`) is floating-point arithmetic and is left out of the report. Only its failure on a table without columns is modelled.
- Serialising the response is not modelled. This includes the JSON encoder's refusal of NaN values in the statistics.
- FastAPI routing, CORS, the `/health` and `/chat` endpoints, the API-key check at start-up, and `print` logging are not modelled.
- Cells are kept as text, with lists, dicts and arrays marked as unhashable. dtypes are given by name. Column names are strings and are distinct. Pandas' type-dependent behaviour beyond hashing is not modelled: for example, `nunique` treating `1` and `1.0` as one value, or a `describe()` failure on a column type it cannot summarise.
- `Common.Lower`: lower-cases ASCII letters only. For the accept-or-reject decision this is exact, because the only non-ASCII character that lower-cases to an ASCII letter is the Kelvin sign. It lower-cases to `k`, and no accepted extension contains a `k`.
- `JsonValues.Repr`: Python's `repr` escapes of non-printable characters other than tab, newline and carriage return are not modelled. It is used only for titles of non-string labels.
- The decoder is trusted to give an object's entries once per key, as a Python dict holds them. Its recursion limit is not modelled.
- An upload without a file name is not modelled.
