# Batch upload and analysis components, modelled in Dafny

This project models the three desktop-app components that hold logic:

- **The upload page's batch manager** (`file-uploader.tsx`). It holds an ordered list of files. Each file is *waiting*, *uploading*, *uploaded* or *failed*.
  - It admits new files. A batch holds at most 55, and only CSV files are taken (by name suffix or MIME type).
  - It removes files by id and resets the list.
  - Uploading snapshots the waiting files, marks them uploading and sends them in one multipart request. When the request resolves, only the snapshotted ids become uploaded or failed.
- **The histogram analyser** (`histogram-analyzer.tsx`).
  - It selects a column and bins that column's numeric values into `binCount` equal-width bins. The width falls back to 1 when the division gives 0, and the index is clamped into the last bin.
  - It keeps a drag-to-zoom state over bin indices and looks up the backend statistics.
- **The time-series analyser** (`time-series-analyzer.tsx`).
  - It keeps a per-column visibility map with toggle, show-all and hide-all, and decides which lines are drawn and in which palette colour.
  - It filters the backend statistics, either for every column or for one selected column.

Layout:

| file | contents |
|---|---|
| `basics.dfy` | `Option`, order-preserving `Filter` (JavaScript's `Array.prototype.filter`) and the subsequence order |
| `dataset.dfy` | a dataset row, the backend `Stats` record, column extraction and the numeric values of a column. Both analysers use this code. |
| `file_uploader.dfy` | class `Batch` over `seq<Item>`, with the pure admission and removal functions and the status counts |
| `histogram_analyzer.dfy` | the `Histogram` specification, the `Tally`/`ComputeHistogram` binning loop, and class `Zoom` |
| `time_series_analyzer.dfy` | the visibility functions, class `SeriesView`, the lines and colours, and the `Statistics` fold |

Each modelled handler that changes state is a method of a class. The class holds that part of the component's state: `Batch.items`, the four `Zoom` fields, and `SeriesView.visible` and `selectedColumn`. Each method's `ensures` gives the whole new state in terms of a pure function of the old state. The histogram's selected column and bin count are not held in a class. They are parameters of the functions that read them, because their handlers (`setSelectedColumn` at `histogram-analyzer.tsx:219` and the `setBinCount` slider handler at line 242) only store the new value. The effect that resets the selected column (lines 44-48) is the pure function `ReconcileColumn`. The properties the components promise are proved as lemmas about those functions.

Modelling choices:

- **Values.** Sample values are `real`, so the width division and `Math.floor` are exact.
- **Parsed rows.** A row lists its keys in `Object.keys` order and maps the keys whose value is numeric to that number. A key missing from that map is a field that `Number(..)` turns into NaN.
- **File ids.** The timestamp and random suffix of an id come from a `stamp: nat -> string` parameter.
- **Upload outcomes.** These are inputs. `CompleteOk` is an ok response. `CompleteErr` takes one of three causes: a response that is not ok (with its status text), a thrown `Error` (with its message), or some other thrown value.
- **Toasts.** These come back as a list of `Diagnostic` values: the capacity refusal, one per rejected file, "nothing pending", and the success toast of an ok upload (`UploadSucceeded`, returned by `CompleteOk`). A failed upload shows no toast, so `CompleteErr` returns none.

### Behaviour worth knowing

- **Capacity check.** The check before admission counts every candidate, CSV or not (`file-uploader.tsx:74`). A selection can therefore be refused when its CSV files alone would fit.
- **Single-bin drag.** A drag that starts and ends on the same bar commits that one bar's range, since the drag-end handler does not compare the two endpoints (`histogram-analyzer.tsx:148-172`).
- **Visibility map built once.** The map is built once, over the columns known when the component mounts (`time-series-analyzer.tsx:72-74`), and is not rebuilt when the columns change.
  - A column that appears later has no entry, so it is not drawn. `InitialVisibility` states this.
  - Show-all stays disabled if every remaining entry is true, because it looks only at the map's own values.
- **Upload button.** The button is disabled exactly when no item is waiting (`file-uploader.tsx:363`). An upload marks every waiting item as uploading, so the button is normally disabled while the request is in flight. The request alone does not disable it, though: a file added while the request is pending enables it again, and a second, overlapping request can then be sent.
- **Progress on failure.** A failed upload leaves each item's progress as it was, which is 0 after the upload began.

## Model

| member | source | states |
|---|---|---|
| Dataset.Columns | src/components/ui/histogram-analyzer.tsx:35-39 | the data columns are the first row's keys without `"time"`, in that row's order (a subsequence of it), and every other key is among them; there are none without rows. The same expression is at time-series-analyzer.tsx:66-69. |
| Dataset.NumericValues | src/components/ui/histogram-analyzer.tsx:56-58 | as many values as there are rows with a numeric field for the column (so none exactly when no row has one); every value is the numeric field of some row, and every row's numeric field is among the values; their order is stated by `NumericValuesInRowOrder` |
| Dataset.NumericValuesInRowOrder | src/components/ui/histogram-analyzer.tsx:56-58 | the values are in row order with one per qualifying row: there are as many as rows whose field is numeric, and the `j`-th value is the field of the `j`-th such row (`map` then `filter`) |
| FileUploader.Admission | src/components/ui/file-uploader.tsx:70-105 | no selection: batch unchanged, no diagnostic; existing count plus all candidates above 55: batch unchanged and exactly one capacity diagnostic `(55, current)`; otherwise the old items are kept as a prefix, the appended items' files are exactly the CSV candidates in candidate order, each new item is waiting with progress 0, no error and an id starting with its name and a dash, there is one diagnostic per rejected candidate in order, and the length stays at most 55 |
| FileUploader.NewItems | src/components/ui/file-uploader.tsx:93-100 | the new items carry exactly the accepted files in order and each is fresh (waiting, progress 0, no error, id prefixed by the name) |
| FileUploader.Without | src/components/ui/file-uploader.tsx:143-145 | no item with the id remains, every other item remains, order is kept (subsequence), exactly the occurrences of the id are dropped (the length falls by their number), and an absent id changes nothing |
| FileUploader.FilterDropsOccurrences | src/components/ui/file-uploader.tsx:143-145 | filtering on "id differs" drops exactly the items carrying that id |
| FileUploader.Pending | src/components/ui/file-uploader.tsx:152 | the waiting items, in batch order: every taken item is waiting and in the batch, every waiting item is taken, the result is a subsequence of the batch, and its length is the waiting count |
| FileUploader.WaitingFilterCount | src/components/ui/file-uploader.tsx:152 | the filter of the waiting items is as long as the waiting count of the status tally |
| FileUploader.SnapshotIsExactlyWaiting | src/components/ui/file-uploader.tsx:152-167 | with unique ids, an item's id is in the upload snapshot iff that item was waiting |
| FileUploader.UploadDisabledIffNothingPending | src/components/ui/file-uploader.tsx:363 | the upload button is disabled iff no upload would be sent (`Pending` is empty) iff the waiting count is 0 |
| FileUploader.ErrorMessage | src/components/ui/file-uploader.tsx:180-209 | a response that is not ok gives the prefix `"Error al subir los archivos: "` followed by its status text; an `Error` gives its message; any other thrown value gives `"Error desconocido"` |
| FileUploader.StartId | src/components/ui/file-uploader.tsx:161-167 | one per-item update: the items with that id become uploading with progress 0, the others are unchanged |
| FileUploader.CountsPartition | src/components/ui/file-uploader.tsx:215-221 | the four status counts add up to the number of items |
| FileUploader.StatusCounts | src/components/ui/file-uploader.tsx:215-221 | the fold's map has a key exactly for the statuses that occur, each mapped to its number of items |
| FileUploader.Batch.constructor | src/components/ui/file-uploader.tsx:59 | the batch starts empty |
| FileUploader.Batch.Reset | src/components/ui/file-uploader.tsx:66-68 | the batch becomes empty |
| FileUploader.Batch.Remove | src/components/ui/file-uploader.tsx:143-145 | the batch becomes `Without(old, id)` and stays within 55 |
| FileUploader.Batch.Admit | src/components/ui/file-uploader.tsx:70-105 | the new batch and diagnostics are `Admission(old, selection, stamp)`, and the batch stays within 55 |
| FileUploader.Batch.BeginUpload | src/components/ui/file-uploader.tsx:151-172 | the snapshot is the ids of the waiting items; with none pending: no request, one "nothing pending" diagnostic, batch unchanged; otherwise one request under field `files` carrying the waiting items' files in batch order, and exactly the snapshotted items become uploading with progress 0, all others unchanged |
| FileUploader.Batch.MarkStarted | src/components/ui/file-uploader.tsx:161-167 | after one update per pending item, exactly the items whose id is among the pending ids are uploading with progress 0, and the others are unchanged |
| FileUploader.Batch.CompleteOk | src/components/ui/file-uploader.tsx:187-195 | exactly the snapshotted ids become uploaded with progress 100; every other item is unchanged; the success toast is returned |
| FileUploader.Batch.CompleteErr | src/components/ui/file-uploader.tsx:200-212 | exactly the snapshotted ids become failed with the cause's message, keeping their progress; every other item is unchanged |
| HistogramAnalyzer.InitialColumn | src/components/ui/histogram-analyzer.tsx:41 | the first column, or `""` when there is none |
| HistogramAnalyzer.ReconcileColumn | src/components/ui/histogram-analyzer.tsx:44-48 | with columns, the result is a column; a selection among the columns (or with no columns) is kept; any change is to the first column |
| HistogramAnalyzer.ColumnStatistics | src/components/ui/histogram-analyzer.tsx:126-129 | a record exists iff there are statistics, a selection, and an entry for it, and then it is that entry |
| HistogramAnalyzer.SeqMin | src/components/ui/histogram-analyzer.tsx:62 | the result is one of the values and at most every value |
| HistogramAnalyzer.SeqMax | src/components/ui/histogram-analyzer.tsx:63 | the result is one of the values and at least every value |
| HistogramAnalyzer.BinWidth | src/components/ui/histogram-analyzer.tsx:64 | the width is positive: the quotient `(max - min) / binCount` when max > min, and 1 when they are equal |
| HistogramAnalyzer.BinIndex | src/components/ui/histogram-analyzer.tsx:76 | the clamped index is at most `binCount - 1`, and at least 0 for a value not below the minimum |
| HistogramAnalyzer.MembersAreThoseOfTheBin | src/components/ui/histogram-analyzer.tsx:75-79 | the values a bin collects are exactly those whose clamped index is that bin |
| HistogramAnalyzer.BinOfSnoc | src/components/ui/histogram-analyzer.tsx:75-79 | adding a value increments the count and appends the value in its own bin only |
| HistogramAnalyzer.Tally | src/components/ui/histogram-analyzer.tsx:66-79 | allocating `binCount` empty bins and adding each value to `bins[idx]` in turn yields exactly the specified bins |
| HistogramAnalyzer.ComputeHistogram | src/components/ui/histogram-analyzer.tsx:53-89 | no selection or no numeric value gives no bins; otherwise exactly `binCount` bins, bin i has index i, and the bins are `Histogram(values, binCount)` |
| HistogramAnalyzer.CountsSumToValues | src/components/ui/histogram-analyzer.tsx:69-79 | the counts add up to the number of values, and each bin's count is the length of its values |
| HistogramAnalyzer.LastEnd | src/components/ui/histogram-analyzer.tsx:64-70 | with max > min, `min + binCount * binWidth` is the maximum |
| HistogramAnalyzer.BinsAreContiguous | src/components/ui/histogram-analyzer.tsx:69-70 | `binCount` bins, each of positive width; each ends where the next starts; the first starts at the minimum; with max > min the last ends at the maximum |
| HistogramAnalyzer.IndexBounds | src/components/ui/histogram-analyzer.tsx:69-76 | for a value v not below the minimum, the bin its index names starts at or below v, and unless it is the last bin it ends above v |
| HistogramAnalyzer.MemberBounds | src/components/ui/histogram-analyzer.tsx:69-79 | for values not below `lo`, every member of bin i is one of the values and lies in `[Start(i), Start(i+1))`, or from `Start(i)` on for the last bin |
| HistogramAnalyzer.ValuesLieInTheirBin | src/components/ui/histogram-analyzer.tsx:69-79 | every value of bin i satisfies `binStart(i) <= v <= max`, and `v < binEnd(i)` unless i is the last bin |
| HistogramAnalyzer.MaxIndex | src/components/ui/histogram-analyzer.tsx:76 | with max > min, the maximum's floor index is `binCount` and the clamp puts it at `binCount - 1` |
| HistogramAnalyzer.MaxLandsInLastBin | src/components/ui/histogram-analyzer.tsx:76 | with max > min, the maximum is among the last bin's values |
| HistogramAnalyzer.AllEqualMembers | src/components/ui/histogram-analyzer.tsx:76-79 | with width 1 and values all equal to the minimum, bin 0 collects them all and every other bin none |
| HistogramAnalyzer.EqualValuesFillBinZero | src/components/ui/histogram-analyzer.tsx:64-79 | when max == min the width is 1, bin 0 holds all values and every other bin is empty |
| HistogramAnalyzer.SliceIndex | src/components/ui/histogram-analyzer.tsx:162 | `slice` index normalisation lands in `[0, len]` and leaves an in-range index unchanged |
| HistogramAnalyzer.JsSlice | src/components/ui/histogram-analyzer.tsx:162 | for in-range bounds it is the ordinary subsequence, and it is never longer than the input |
| HistogramAnalyzer.CommitRange | src/components/ui/histogram-analyzer.tsx:159-164 | for in-range endpoints, the start of the lower bin and the end of the higher bin, whichever order they were dragged in; (0, 0) when the slice is empty |
| HistogramAnalyzer.CommitIsProperRange | src/components/ui/histogram-analyzer.tsx:159-164 | on the computed bins with in-range endpoints, the committed range is `[min + l*w, min + (h+1)*w]` and `dataMin < dataMax` |
| HistogramAnalyzer.FullRange | src/components/ui/histogram-analyzer.tsx:174-183 | no range iff there is no selection or no numeric value; otherwise the minimum and maximum of the values |
| HistogramAnalyzer.Zoom.constructor | src/components/ui/histogram-analyzer.tsx:92-102 | both endpoints null and range (0, 0) |
| HistogramAnalyzer.Zoom.ZoomStart | src/components/ui/histogram-analyzer.tsx:132-138 | a press on a bar sets only the left endpoint; no event changes nothing |
| HistogramAnalyzer.Zoom.ZoomMove | src/components/ui/histogram-analyzer.tsx:140-146 | the right endpoint follows the pointer only while a left endpoint is set; nothing else changes |
| HistogramAnalyzer.Zoom.ZoomEnd | src/components/ui/histogram-analyzer.tsx:148-172 | both endpoints are cleared; with either missing the range is kept, otherwise it becomes `CommitRange` of the endpoints |
| HistogramAnalyzer.Zoom.ResetZoom | src/components/ui/histogram-analyzer.tsx:174-192 | with a full range, the endpoints are cleared and that range is restored; otherwise nothing changes (also the reset effect at lines 105-123) |
| TimeSeriesAnalyzer.Color | src/components/ui/time-series-analyzer.tsx:227 | a palette colour; position i below 10 gets `COLORS[i]` |
| TimeSeriesAnalyzer.ColorsRepeatEveryTen | src/components/ui/time-series-analyzer.tsx:35-46 | two positions share a colour iff they are congruent modulo 10 |
| TimeSeriesAnalyzer.IndexOf | src/components/ui/time-series-analyzer.tsx:338 | -1 iff the column is absent, otherwise its first position |
| TimeSeriesAnalyzer.CardColor | src/components/ui/time-series-analyzer.tsx:337-338 | a card's colour is undefined iff its column is absent, otherwise the colour of the column's first position |
| TimeSeriesAnalyzer.CardMatchesLine | src/components/ui/time-series-analyzer.tsx:292 | with distinct column names, column i's card has the colour of column i's line |
| TimeSeriesAnalyzer.Fill | src/components/ui/time-series-analyzer.tsx:72-74 | the map's keys are exactly the columns and every value is the flag (used by show-all and hide-all too) |
| TimeSeriesAnalyzer.Toggled | src/components/ui/time-series-analyzer.tsx:85-90 | the named column's visibility flips (a missing entry becomes visible), its key is added, and every other entry is unchanged |
| TimeSeriesAnalyzer.ToggleTwice | src/components/ui/time-series-analyzer.tsx:85-90 | toggling twice restores every column's visibility, and the map itself when the column had an entry |
| TimeSeriesAnalyzer.ButtonsAfterShowAndHide | src/components/ui/time-series-analyzer.tsx:92-102 | after show-all its button is disabled, and hide-all's is disabled iff there are no columns; symmetrically after hide-all |
| TimeSeriesAnalyzer.ToggleEnablesButtons | src/components/ui/time-series-analyzer.tsx:185-195 | hiding a column of a fully visible map enables show-all; toggling any column of a fully hidden map enables hide-all |
| TimeSeriesAnalyzer.InitialVisibility | src/components/ui/time-series-analyzer.tsx:72-74 | in the initial map a column is visible iff it was among the columns at mount time |
| TimeSeriesAnalyzer.DrawnFrom | src/components/ui/time-series-analyzer.tsx:284-286 | the drawn positions are strictly increasing, each names a visible column, and every visible position is included |
| TimeSeriesAnalyzer.Lines | src/components/ui/time-series-analyzer.tsx:298-307 | for a single selected column, one line for that column in `#10b981` |
| TimeSeriesAnalyzer.AllModeLines | src/components/ui/time-series-analyzer.tsx:283-297 | in `"all"` mode each line is a visible column at some position i, with colour `COLORS[i mod 10]`; their positions increase along the lines; every visible column's line is present |
| TimeSeriesAnalyzer.Statistics | src/components/ui/time-series-analyzer.tsx:114-130 | no statistics gives null; in `"all"` mode the keys are exactly the columns that have an entry, each mapped to it; for one column, a one-entry map when it has an entry, else null; the average line read from the result is the one the backend map gives |
| TimeSeriesAnalyzer.AverageLine | src/components/ui/time-series-analyzer.tsx:309-321 | read from a statistics map: the average line exists iff one column is selected and has an entry, and it sits at that entry's average |
| TimeSeriesAnalyzer.SeriesView.constructor | src/components/ui/time-series-analyzer.tsx:71-74 | the selector starts on `"all"` and the map is all true over the mount-time columns |
| TimeSeriesAnalyzer.SeriesView.Select | src/components/ui/time-series-analyzer.tsx:162 | only the selector changes |
| TimeSeriesAnalyzer.SeriesView.Toggle | src/components/ui/time-series-analyzer.tsx:85-90 | the map becomes `Toggled(old, c)`; the selector is unchanged |
| TimeSeriesAnalyzer.SeriesView.ShowAll | src/components/ui/time-series-analyzer.tsx:92-96 | the map becomes all true over the current columns (dropping other keys) and show-all is then disabled |
| TimeSeriesAnalyzer.SeriesView.HideAll | src/components/ui/time-series-analyzer.tsx:98-102 | the map becomes all false over the current columns and hide-all is then disabled |

## Left out

- **Network requests.** The `fetch` of the merge endpoint, `res.json()`, the response payload and the navigation to the analysis page are left out. They are I/O; the outcome of a request is an input to `CompleteOk`/`CompleteErr`.
- **Toasts.** Every toast is returned as a `Diagnostic` value; their wording, descriptions and styling are presentation and are not modelled.
- **Ids.** `Date.now()` and `Math.random()` are not modelled: a clock and randomness are replaced by the `stamp` parameter. Uniqueness of ids is a precondition where a lemma needs it (`SnapshotIsExactlyWaiting`).
- **Case folding.** `toLowerCase` is modelled on ASCII letters only; Unicode case mapping is not available.
- **Number parsing.** `Number(..)` and `isNaN` are not modelled: a row arrives with its numeric fields already parsed.
- **Floating point.** IEEE-754 rounding of the width, the division and `floor` is not modelled; values are exact reals.
- `HistogramAnalyzer.ComputeHistogram`: requires `binCount > 0`. The slider limits it to 5..50, and with 0 bins the code would index `bins[-1]`.
- **Large inputs.** `Math.min(...values)` and `Math.max(...values)` are taken over the whole sequence; the engine's limit on spread arguments for very large inputs is not modelled.
- **Chart rendering.** Recharts rendering, the tooltip (its percentage and `toFixed` labels), the tick formatters, the axis `domain` the zoom range is applied to, `html2canvas` image download, date parsing and formatting (`parseISO`/`format`) and the `formattedTime` field are left out. These are foreign libraries and presentation.
- **Event objects.** The chart's mouse event is modelled as an optional bar index. An event without `activeLabel` (which would store `undefined`) is not modelled.
- **React runtime.** Asynchronous `setState` batching, functional-update queues and stale closures (such as `files.length` and `zoomState` captured by callbacks) are not modelled; each handler runs as one sequential step on the current state. For the same reason, the per-item `setFiles` updates of an upload are applied one after another in `BeginUpload`.
- **Statistics cards.** The order of the cards (`Object.entries` order) is not modelled; the statistics result is a map.
- **Drag-and-drop and the file input.** The handlers `handleDragEnter`, `handleDragLeave`, `handleDragOver`, `handleDrop` and `handleInputChange` only forward the file list to the admission function, or toggle a highlight flag. They are not modelled separately.
- **Other parts of the repository.** The analysis page that fetches a dataset per date, the date selector, the Electron main process and start-up scripts, and the module-linking script are not part of this model.
