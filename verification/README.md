# Spectrum viewer ingestion and trace state, in Dafny

This project models the core of a desktop/web viewer for spectroscopy and
diffraction data. The viewer has two builds. In the current build
(`src/App.jsx`), a batch of files is read, each file goes through a per-format
branch, and the results are merged into the app's trace and group state. The
older build (`Release/src/App.jsx`) is kept as a second, smaller model.

Modules, one per concern of the program:

- `Text`, `Numbers`, `Series`, `PropertyOrder`: the JavaScript string,
  number and object primitives the parsers rely on.
  - `Text` covers `trim`, `split` and `join`, `split(/\r?\n/)`, `toLowerCase`
    on ASCII, and the `<` order on strings.
  - `Numbers` covers `Number`, `parseFloat` and `parseInt` on decimal literals.
  - `Series` covers the `{x, y}` arrays and the line loop every reader shares.
  - `PropertyOrder` covers the order in which `Object.keys` lists a plain
    object's names: array indices first, in numeric order, then the rest in
    the order they were assigned.
- `RelabLabel`: `extractRelabMeta`, the regular-expression chain that reads a
  PDS4/RELAB XML label.
- `LabelRender`: a minimal label written from a file name, a record count and
  two field layouts, and the proof that `extractRelabMeta` reads it back.
- `RelabTab`: `parseRelabTab`, the fixed-width reader driven by that label.
- `SelfDescribingTab`: `isRelabTabFile` and the inline reader the TAB branch
  uses, as written, for files that carry their own record count. A corrected
  reader that drops blank lines first sits beside it for the Findings.
- `Formats`: every branch of `parseAndAddFiles`' per-file step.
  - the instrument time/temperature log;
  - CSV with its header sniff;
  - XML labels;
  - TAB, with its three paths and the unconditional /1000;
  - comma-only DPT;
  - ASC;
  - whitespace text for every other extension.
- `Viewer`: the app state and its handlers.
  - The state is four parallel lists: traces, file names, visibility flags and
    group memberships.
  - It also holds the groups and their Show/Hide toggles, the colour counter,
    the axis labels and the ranges.
  - The handlers are batch merge, label reconciliation, unload, move, clone,
    group click, context-menu toggle, add, rename, delete, toggle visibility,
    `clearAll`, colour change and typed ranges.
- `Release`: the older build.
  - a `parseDPT` that splits on any run of white space, commas and semicolons;
  - a TAB branch that divides by 1000 only when the mean x exceeds 100;
  - an unsorted merge whose colours start at the trace count modulo 10;
  - its `clearAll`.

  Its `extractRelabMeta` and `parseRelabTab` behave like the current ones and
  are the same members.

A batch is given as the list of files in the order their readers complete.
Colours depend on that order.

The model follows the code, including where the code departs from what its
comments and its written description lead one to expect:

- Colours are taken when a reader finishes, before the batch is sorted. They
  therefore follow completion order, not the sorted order (`src/App.jsx:297`,
  `339`, `385` against `447-458`).
- Only the DPT and ASC branches discard an empty series. The CSV, TAB and
  generic branches push a trace with no points.
- `clearAll` keeps the group memberships, and the lists fall out of step (see
  Findings).
- The time-log, TAB, DPT and ASC branches set the axis labels as each file
  completes, unless the labels are locked. When a batch holding at least one
  such file proposes more than one label pair, the labels are therefore not
  those from before the batch: they are the pair of the last such file to
  complete, and the candidate dialog opens as well. The CSV branch only
  proposes its header names, so a batch whose pairs all come from CSV headers
  keeps the labels it started with while the dialog opens.
- In the current build the colour counter starts at 0 and never restarts. In
  the older build it starts at the number of traces modulo 10.

## Model

| member | source | states |
|---|---|---|
| `Numbers.FormatNatParses` | src/App.jsx:44-45 | `Number` and `parseFloat` read the decimal notation of every whole number back as that number |
| `Numbers.PlainDecimalParses` | src/App.jsx:370-373 | every token of the data-line pattern is a finite number for `parseFloat`, and `Number` gives the same value |
| `Text.JoinSplit` | src/App.jsx:3 | joining the pieces of a `split` with the separator gives back the text |
| `Text.SplitJoin` | src/App.jsx:40 | splitting pieces joined by a separator they do not contain gives back the pieces |
| `Text.SplitLinesJoin` | src/App.jsx:32 | lines without line breaks, joined with newlines, come back from `split(/\r?\n/)` unchanged |
| `Text.SplitLinesOneLine` | src/App.jsx:278 | text without a newline is a single line, a trailing carriage return included, since `split(/\r?\n/)` removes a carriage return only before a newline |
| `SelfDescribingTab.DataRun` | src/App.jsx:8-14 | the counted run is a prefix of data lines that ends at the first line not matching the pattern |
| `SelfDescribingTab.IsRelabTabFile` | src/App.jsx:2-19 | the loop returns true exactly when the recognition rule holds: at least three non-blank trimmed lines, a digit-string first line, and as many data lines directly after it as that line says |
| `SelfDescribingTab.DetectsCountedBody` | src/App.jsx:2-19 | a count line followed by data rows is recognised if and only if the count equals the number of rows |
| `SelfDescribingTab.CountedLine` | src/App.jsx:370-376 | a trimmed line yields a point exactly when it matches the 2- or 3-number pattern |
| `SelfDescribingTab.ReadCounted` | src/App.jsx:365-378 | the inline reader yields at most `n` points for a count `n`, and none when the first line is not a number |
| `SelfDescribingTab.ReadCountedLines` | src/App.jsx:367-378 | the loop visits `lines[1..n]` within bounds and keeps the points of the lines that match, in order |
| `SelfDescribingTab.BlankAfterCountLosesRow` | src/App.jsx:365-368 | a recognised file with a blank line after its count loses its last declared row to the reader as written, while the corrected reader reads every row |
| `SelfDescribingTab.IntendedReadsDeclaredCount` | src/App.jsx:365-378 | with blank lines dropped before the count is applied, a recognised file yields exactly the declared number of points |
| `RelabLabel.FindLiteral` | src/App.jsx:939-941 | the leftmost case-insensitive occurrence of a literal at or after a position: it matches there and at no earlier position from the start; none means no position matches |
| `RelabLabel.NoMatchInAll` | src/App.jsx:939-941 | the recursive "no match in this stretch" used by `FindLiteral` holds exactly when no position of the stretch matches |
| `RelabLabel.MatchesAtAll` | src/App.jsx:934-941 | a literal matches at a position exactly when every character agrees with the text there, ignoring ASCII case (the `i` flag) |
| `RelabLabel.FindElement` | src/App.jsx:934 | the leftmost `open(run+)close` at or after a position, with no element starting earlier from that position |
| `RelabLabel.NoElementInAll` | src/App.jsx:934-937 | the recursive "no element in this stretch" used by `FindElement` holds exactly when no position of the stretch starts an element |
| `LabelRender.FileNameFound` | src/App.jsx:934-936 | in a label that opens with the file-name element, the file-name search captures exactly the written name |
| `LabelRender.RecordsFound` | src/App.jsx:937-938 | in such a label the records search captures exactly the decimal record count |
| `LabelRender.FirstBlockField` | src/App.jsx:939-945 | the field whose block comes first is read with the location and length written in it |
| `LabelRender.SecondBlockField` | src/App.jsx:939-945 | a field whose block comes second is read from that block, the lazy search passing over the first block when the two names differ in their first letter |
| `LabelRender.LabelRoundTrip` | src/App.jsx:933-949 | every label written from a `<`-free file name, a record count and the two field layouts reads back as the trimmed lower-cased name, both 0-based locations, both lengths and the count |
| `RelabLabel.ExtractRelabMeta` | src/App.jsx:933-949 | fails with "file_name not found" exactly when the file-name element is missing. Fails with "fields not found" exactly when the Wavelength or Reflectance block is missing. Otherwise the name is trimmed and lower-cased, both locations are made 0-based, the lengths are kept, and the record count is absent exactly when `records` is |
| `RelabTab.Walk` | src/App.jsx:957-970 | at most one count line is skipped. The walk ends only at a letter-initial line or once the record count is reached. It never takes more points than the count |
| `RelabTab.ParseRelabTab` | src/App.jsx:951-973 | throws "no numeric data" exactly when the line walk collects no point, and otherwise returns the collected points in order, at most `recordCount` of them |
| `RelabTab.StopsAtMetaLine` | Release/src/App.jsx:447-448 | nothing after a letter-initial line is read, whatever came before it |
| `RelabTab.PassedLineIgnored` | src/App.jsx:958-967 | a line the loop passes over, whether blank, too short or unreadable, can be removed without changing the points |
| `RelabTab.ShortLineIgnored` | src/App.jsx:958-962 | a blank line, or a line shorter than the field layout that is not a count or letter line, changes nothing in the result |
| `RelabTab.LetterFirstLineFails` | src/App.jsx:961-971 | a text that opens with a letter-initial line throws "no numeric data" |
| `RelabTab.CountLineIsHeader` | src/App.jsx:960 | the record-count line itself is taken for the count header |
| `RelabTab.RelabTabRoundTrip` | src/App.jsx:951-973 | a count line followed by right-aligned fixed-width rows reads back as exactly the written pairs, in order |
| `Formats.Extension` | src/App.jsx:273-274 | the extension holds no dot |
| `Formats.ExtensionOf` | src/App.jsx:273-274 | a name `stem.ext` whose `ext` has no dot gets `ext`, lower-cased, as its extension, however many dots the stem holds |
| `Text.SplitLast` | src/App.jsx:274 | the last piece of a split is exactly the text after the last separator |
| `Formats.FindFirst` | src/App.jsx:282 | `findIndex`: the first index satisfying the test, or none at all |
| `Formats.Filled` | src/App.jsx:286 | a line is kept exactly when its trimmed text is not empty |
| `Formats.FilledAppend` | src/App.jsx:286 | filtering distributes over concatenation, so together with `FilledCons` the kept lines are the non-blank ones in their original order |
| `Formats.FilledKeepsAll` | src/App.jsx:286 | lines none of which is blank are all kept, unchanged |
| `Text.NonBlankAppend` | src/App.jsx:307 | filtering empty lines distributes over concatenation, and a line is kept exactly when it is not empty |
| `Formats.UnitScaled` | src/App.jsx:434-435 | with the reflectance preset and nm declared, every x is the original divided by 1000; otherwise the series is unchanged |
| `Formats.TimeLog` | src/App.jsx:281-297 | no header line gives no trace; a trace has paired arrays and starts at time 0 |
| `Formats.TimeLogRoundTrip` | src/App.jsx:281-294 | a log with a header naming the elapsed-time and temperature columns, one skipped line and one tab-separated line per sample reads back as the samples in order, the times rebased to start at 0 |
| `Formats.Csv` | src/App.jsx:306-347 | a file with no non-empty line is ignored, and any other is pushed. Header labels are proposed only when the sniff finds a header and there is a data row |
| `Formats.CsvPlainRoundTrip` | src/App.jsx:329-335 | without a header, rows of two whole numbers read back as exactly those points, in order |
| `PropertyOrder.KeyColumns` | src/App.jsx:322 | `Object.keys` lists every assigned name once, array indices before other names, indices in ascending numeric order and other names in assignment order |
| `PropertyOrder.KeyColumnsPlain` | src/App.jsx:322 | with no array-index name, the names are listed in the order they were assigned |
| `PropertyOrder.KeyColumnsOfTwo` | src/App.jsx:322 | two names are listed swapped exactly when the second is an array index the first does not precede |
| `Formats.HeaderColumns` | src/App.jsx:322-323 | x is read from the column `Object.keys` lists before every other assigned name of the first data row; y from the column it lists next, or from x's column when that name is empty or there is no other; both exist in the header and in that row |
| `Formats.CsvHeaderRoundTrip` | src/App.jsx:321-328 | below a two-name header, rows of two whole numbers read back in the columns `Object.keys` lists first, and the first row's two names are proposed as the labels in header order |
| `Formats.CsvNamedHeaderRoundTrip` | src/App.jsx:321-328 | when the second header name is not an array index, the rows read back as exactly those points |
| `Formats.CsvIndexHeaderSwaps` | src/App.jsx:321-328 | under a header such as `name,1`, every point comes out with x and y exchanged while the labels keep header order |
| `Formats.IndexNamesReadFirst` | src/App.jsx:322-323 | under the header `wavelength,1,2`, x is read from the second column and y from the third |
| `Formats.LetterCellIsNotNumber` | src/App.jsx:312 | a cell beginning with a letter is not a finite `Number` |
| `Formats.WordRowIsHeader` | src/App.jsx:311-313 | a first row whose leading cell is a word is taken for a header |
| `Formats.NumberRowIsData` | src/App.jsx:311-313 | a first row of two whole numbers is not taken for a header |
| `Formats.Xml` | src/App.jsx:349-352 | a readable label with a non-empty file name is stored under that name lower-cased; anything else is ignored |
| `Formats.DptRow` | src/App.jsx:35-47 | blank, `#` and comma-free lines yield nothing |
| `Formats.ParseDpt` | src/App.jsx:31-50 | `x` and `y` have equal length, at most one point per line |
| `Formats.ParseDptReadsLines` | src/App.jsx:31-50 | the points are the readings of the readable lines in line order, and every other line contributes nothing |
| `Formats.CommaPairRead` | src/App.jsx:38-45 | the line `a,b` for whole numbers reads as the point (a, b) |
| `Formats.ParseDptRoundTrip` | src/App.jsx:31-50 | `x,y` lines joined with newlines read back as exactly those points, in order |
| `Formats.TabRaw` | src/App.jsx:355-381 | with a label, the fixed-width reader's result is used, or `parseDPT` when it throws. Without a label, a self-describing file goes through the inline reader as written and anything else through `parseDPT` |
| `Formats.TabCountBound` | src/App.jsx:363-378 | without a label, a self-describing file never yields more points than its first non-blank line declares, and none when its first line is blank |
| `Formats.SelfDescribingRoundTrip` | src/App.jsx:363-378 | without a label, a count line followed by one `x y` line per point is recognised and reads back as exactly those points |
| `Formats.TabLosesRowAfterBlank` | src/App.jsx:365-368 | without a label, a blank line after the count costs a recognised file its last row |
| `Formats.TabLabelRoundTrip` | src/App.jsx:355-359 | with its label, a fixed-width file reads back as exactly the written pairs |
| `Formats.Tab` | src/App.jsx:354-391 | the trace is always pushed with the wavelength labels, and every x is the raw one divided by 1000 on all three paths |
| `Formats.WhitespaceRow` | src/App.jsx:408-413 | blank and `#` lines yield nothing; a point needs at least two tokens |
| `Formats.WhitespaceSeriesReadsLines` | src/App.jsx:408-415 | the points are the readings of the readable lines in line order, and every other line contributes nothing |
| `Formats.WhitespaceRoundTrip` | src/App.jsx:408-415 | `x y` lines joined with newlines read back as exactly those points, in order |
| `Formats.Asc` | src/App.jsx:407-424 | ignored exactly when no point is read; otherwise pushed with the diffraction labels |
| `Formats.Dpt` | src/App.jsx:394-404 | ignored exactly when `parseDPT` reads no point; otherwise pushed with the wavelength labels |
| `Formats.Generic` | src/App.jsx:426-441 | always pushed, without a label hint, with the nm scaling applied |
| `Formats.Ingest` | src/App.jsx:276-441 | the log banner wins over the extension and only XML yields a label. DPT and ASC never push an empty trace. TAB and unknown extensions always push. CSV pushes exactly when the file has a non-empty line |
| `Formats.LoneCRCsvPushed` | src/App.jsx:278-308 | a CSV file holding only a carriage return has one non-empty line, so a trace is pushed |
| `Viewer.PaletteColor` | src/App.jsx:297 | every assigned colour is one of the ten palette entries |
| `Viewer.PaletteColorsDiffer` | src/App.jsx:26-29 | counter values that differ modulo 10 give different colours |
| `Viewer.Init` | src/App.jsx:213-236 | the start state is in step and valid, with groups 1 and 2 and group 1 active |
| `Viewer.Loads` | src/App.jsx:297 | every pushed trace comes from a loaded arrival, and every loaded arrival pushes one |
| `Viewer.LoadsOne` | src/App.jsx:297 | one arrival pushes one trace exactly when it is loaded |
| `Viewer.LoadsAppend` | src/App.jsx:297 | the pushed traces of two runs of arrivals are those of the first followed by those of the second: completion order, each arrival once |
| `Viewer.Immediate` | src/App.jsx:388-390 | without an immediate-setting file the labels stay. The last file to complete wins when it sets them. Any result is either the old labels or some file's pair |
| `Viewer.ImmediateLastSetter` | src/App.jsx:388-390 | the labels after the readers are the pair of the last file to complete that sets them, wherever it stands |
| `Viewer.Store` | src/App.jsx:349-352 | earlier keys stay, every new key comes from an XML file of the batch, and a batch with no label leaves the store as it was |
| `Viewer.StoreUntouched` | src/App.jsx:349-352 | a key no XML file of the batch is filed under keeps its label, or stays absent |
| `Viewer.StoreLastLabel` | src/App.jsx:349-352 | a key's label is that of the last XML file of the batch filed under it |
| `Viewer.Present` | src/App.jsx:466 | a pair is present exactly when some non-null hint proposes it |
| `Viewer.Distinct` | src/App.jsx:468-469 | the unique list has the same members, without duplicates |
| `Viewer.Reconcile` | src/App.jsx:465-473 | with no hint nothing changes. One distinct pair is adopted. Disagreeing hints leave the labels and open the dialog with every distinct pair once |
| `Viewer.SortDesc` | src/App.jsx:448-454 | the result is a permutation ordered by key, largest first |
| `Viewer.Block` | src/App.jsx:447-458 | the batch's new traces, ordered by lower-cased name descending, are a permutation of the pushed ones |
| `Viewer.Merge` | src/App.jsx:446-475 | every list grows by the number of pushed traces. Prior entries are kept and the sorted batch is appended. New entries are visible and in the active group. Ranges reset, labels reconciled unless locked, lists stay in step |
| `Viewer.Batch` | src/App.jsx:263-276 | an empty selection changes nothing. Otherwise each file goes through the per-file step and the results are merged, keeping the lists in step and every trace paired |
| `Viewer.BlockPaired` | src/App.jsx:447-458 | every appended trace has as many x as y values |
| `Viewer.SortKeepsDistinctColors` | src/App.jsx:448-454 | the sort does not make two colours equal |
| `Viewer.BatchColorsDistinct` | src/App.jsx:385-386 | a batch of at most ten traces has ten different colours, whatever the completion order |
| `Viewer.CounterColorsDistinct` | src/App.jsx:385-386 | traces coloured from up to ten consecutive counter values all have different colours |
| `Viewer.OrderOfTwo` | src/App.jsx:448-454 | two traces sorted by descending lower-cased name come out with the higher name first |
| `Viewer.ColorFollowsCompletion` | src/App.jsx:447-458 | of `a.txt` completing before `b.txt`, `b.txt` is listed first but has the second colour |
| `Viewer.ToggleVisibility` | src/App.jsx:498 | only the flag at `idx` flips |
| `Viewer.ClearAll` | src/App.jsx:499 | traces, names and flags are emptied and the ranges reset. Memberships are kept, so a non-empty state falls out of step |
| `Viewer.ClearAllIntended` | src/App.jsx:499 | the corrected `clearAll` empties the memberships too and stays in step |
| `Viewer.ClearAllMisgroups` | src/App.jsx:499 | after `clearAll` as written, the next loaded file takes a stale membership and is not drawn |
| `Viewer.ClearAllIntendedRegroups` | src/App.jsx:446-464 | after the corrected `clearAll`, every new trace is in the active group and drawn |
| `Viewer.ApplyInlineRange` | src/App.jsx:502-516 | only the chosen axis's range can change. A range that is set has its minimum below its maximum and both ends are what `parseFloat` reads from the inputs; inputs that are not two finite numbers in increasing order change nothing |
| `Viewer.TypedRangeApplies` | src/App.jsx:502-516 | typing two whole numbers, smaller first, sets exactly that range |
| `Viewer.TypedRangeRejected` | src/App.jsx:502-516 | typing a maximum that is not above the minimum changes nothing |
| `Viewer.SetColor` | src/App.jsx:530-531 | only the chosen trace's colour changes |
| `Viewer.RemoveAt` | src/App.jsx:827-830 | the entry at `idx` is removed and the others keep their order |
| `Viewer.Unload` | src/App.jsx:826-831 | `idx` leaves all four lists, nothing else changes, and the lists stay in step |
| `Viewer.MoveToGroup` | src/App.jsx:747-752 | only the membership at `idx` changes. A visible trace moved into the active group is drawn |
| `Viewer.CloneIntoGroup` | src/App.jsx:735-746 | a visible copy named after its file, with the next colour, is appended to the group. In the active group it is drawn |
| `Viewer.UnloadUndoesClone` | src/App.jsx:735-746 | unloading the copy restores every list, and only the colour counter remembers it |
| `Viewer.ToggleGroup` | src/App.jsx:917-925 | the toggle flips, every trace of the group takes the new setting, and nothing else changes |
| `Viewer.ClickGroup` | src/App.jsx:717-723 | the group becomes active and its toggle flips. The drawn traces are then exactly the group's traces when it is shown, and none when it is hidden |
| `Viewer.MaxId` | src/App.jsx:765 | the largest id is one of the ids |
| `Viewer.NextGroupId` | src/App.jsx:764-765 | the new id is fresh and above every existing id, 1 when there are none |
| `Viewer.AddGroup` | src/App.jsx:762-770 | a group named after its fresh id is added, made active and shown, and the group state stays valid |
| `Viewer.RenameGroup` | src/App.jsx:887-898 | with an existing id and a non-blank answer, only that group's name changes, to the trimmed answer; otherwise nothing changes |
| `Viewer.Without` | src/App.jsx:906 | a group is kept exactly when its id differs, and ids stay unique |
| `Viewer.WithoutAppend` | src/App.jsx:906 | removing a group distributes over concatenation, so the kept groups keep their order |
| `Viewer.WithoutFirst` | src/App.jsx:906-909 | the first group left is the first group of the list with another id |
| `Viewer.WithoutEmpty` | src/App.jsx:906-909 | nothing is left when every group had the deleted id |
| `Viewer.DeleteGroup` | src/App.jsx:899-916 | refused while a trace belongs to the group. Otherwise the group and its toggle go, and when it was active the first remaining group becomes active. The group state stays valid |
| `Release.DptRow` | Release/src/App.jsx:14-25 | blank and `#` lines yield nothing; a point is read from the first two delimiter-separated tokens |
| `Release.ParseDpt` | Release/src/App.jsx:10-27 | `x` and `y` have equal length, at most one point per line |
| `Release.ParseDptReadsLines` | Release/src/App.jsx:10-27 | the points are the readings of the readable lines in line order |
| `Release.ParseDptRoundTrip` | Release/src/App.jsx:10-27 | whole-number pairs written one per line, split by any one delimiter, read back as exactly those points |
| `Release.DelimitedPairRead` | Release/src/App.jsx:17-20 | two whole numbers separated by white space, a comma, a semicolon or a tab read as that point |
| `Release.SemicolonLine` | Release/src/App.jsx:17 | a semicolon-separated line is a point for the older reader and is skipped by the current one |
| `Release.ToMicrons` | Release/src/App.jsx:141-145 | a series with a mean x above 100 has every x divided by 1000; any other is unchanged |
| `Release.ToMicronsSettles` | Release/src/App.jsx:141-145 | for a mean of at most 100000 the guess converts once: applying it again changes nothing |
| `Release.TabRaw` | Release/src/App.jsx:124-140 | with a label, the fixed-width result or `parseDPT` when it throws; without one, `parseDPT`, with no self-describing check |
| `Release.TabLabelRoundTrip` | Release/src/App.jsx:124-131 | with its label, a fixed-width file reads back as exactly the written pairs |
| `Release.TabNoLabelRoundTrip` | Release/src/App.jsx:136-140 | without a label, delimited whole-number pairs read back as those pairs |
| `Release.Tab` | Release/src/App.jsx:120-145 | with no label under the lower-cased file name, or a label that finds no data, the unit guess of `parseDPT`'s series; otherwise the unit guess of the label reader's points |
| `Release.Ingest` | Release/src/App.jsx:71-174 | only XML yields no trace; every other file pushes one without label hints; unknown extensions use `parseDPT` |
| `Release.CsvRoundTrip` | Release/src/App.jsx:72-85 | rows of two whole numbers in a CSV file read back as exactly those points, with no header test |
| `Release.NewTracesColors` | Release/src/App.jsx:65 | the k-th new trace has colour `(n + k) mod 10` for `n` traces already plotted |
| `Release.Merge` | Release/src/App.jsx:177-184 | the lists grow in step with the new traces, appended unsorted in completion order. Colours continue from the trace count, new flags are true and the ranges reset. The handler's captured label store is refreshed exactly when the trace count changes |
| `Release.Batch` | Release/src/App.jsx:58-184 | an empty selection changes nothing; otherwise every file is read against the label store the handler captured and merged, keeping the lists in step |
| `Release.BatchIntended` | Release/src/App.jsx:58-184 | the batch as intended reads every file against the labels loaded so far |
| `Release.LabelOnlyBatch` | Release/src/App.jsx:177-184 | a batch of label files adds no trace, so the handler keeps its old store while the labels land in the live one |
| `Release.StaleLabelIgnored` | Release/src/App.jsx:124-140 | a TAB file the captured store has no label for goes to `parseDPT` |
| `Release.IntendedUsesLabel` | Release/src/App.jsx:124-131 | the intended batch reads a TAB file with its loaded label |
| `Release.LabelThenTab` | Release/src/App.jsx:124-184 | a label dropped alone and its TAB file dropped next: as written the TAB file goes to `parseDPT`, as intended it is read with the label |
| `Release.ToggleVisibility` | Release/src/App.jsx:186-192 | only the flag at `idx` flips |
| `Release.ClearAll` | Release/src/App.jsx:194-200 | all three lists are emptied and the ranges reset; the labels stay, and the handler is rebuilt with them when there were traces to clear |
| `Release.ColorsRestartAfterClear` | Release/src/App.jsx:65 | after `clearAll` the next batch starts again at the first palette colour |

## Left out

- Reading files: `FileReader`, `Promise.all` and Papa Parse's streaming are I/O and scheduling. A batch is the list of files in the order their readers complete.
- Papa Parse's tokenizer is a library: a CSV file carries the rows it would return, as data.
- Papa Parse's dynamic typing of `true`, `false` and ISO dates is not modelled: every cell is text read with `Number`.
- Numbers are exact reals over decimal literals. Hexadecimal, `Infinity`, overflow and IEEE rounding are not modelled.
- `toLowerCase` and the string order cover ASCII letters only.
- The unit dialog of `handleFiles` (`src/App.jsx:478-496`) is a UI step: its answer is the `unitNm` parameter.
- Plotly rendering, zoom events, the crosshair, the legend display sort, drag-over styling and every dialog are presentation.
- The Python viewer, the Electron shells, the tests and the build configuration are outside the ingestion core.
- Group ids are strings in the program and natural numbers here. Ids the program creates are decimal strings, and `Number` maps them one to one.
- In the current build the label store a batch reads is the one from before the batch, since the handler is rebuilt whenever the store changes. An XML file loaded together with its TAB file helps only later batches. The older build keeps an older store still (see Findings).
- `Release/src/App.jsx:412` writes the `file_name` pattern with an unescaped `/`, which does not parse as JavaScript. The model reads it as the pattern of `src/App.jsx:934`.
- Viewer.ToggleVisibility: requires an index in range. The legend only offers existing entries; an out-of-range index would create an array hole, which is not modelled.
- Viewer.MoveToGroup: requires an index in range. A non-integer or out-of-range drag payload is not modelled.
- Viewer.CloneIntoGroup: requires an index in range, for the same reason.
- Viewer.SortDesc: states order and permutation but not stability. The stability of `Array.prototype.sort` for equal names is not proved.
- Formats.TimeLog: its contract states pairing, the rebased start and the missing-header case. Which cells become points is stated by `TimeLogRoundTrip`, for logs whose data cells are whole numbers only.
- Formats.Csv: its contract states when a trace is pushed and labelled. The values read are stated by `CsvPlainRoundTrip` and `CsvHeaderRoundTrip`, for rows of whole numbers only.
- Formats.HeaderColumns: header names are taken to be distinct, each column its own key. What Papa Parse does with a repeated name depends on its version (recent versions rename it, older ones store both cells under one key), and neither is modelled. Cells past the last header name, which Papa Parse gathers under `__parsed_extra`, are never among the two columns read.
- String lengths and positions count characters (Unicode scalar values). JavaScript's `length` and `slice` count UTF-16 code units, so a character outside the Basic Multilingual Plane on a fixed-width TAB line (`src/App.jsx:962-964`) shifts every later field by one unit in the program but not in the model.
- LabelRender.LabelRoundTrip: covers labels in the minimal layout `LabelRender.Label` writes, with the Wavelength block first. Real PDS4 labels hold many more elements; what the searches do on any text is stated by `FindLiteral`, `FindElement` and `ExtractRelabMeta`.
- Formats.Ingest: states the branch outcomes per extension. The series each branch produces are stated by the branch members.

## Findings

| source | as written | input that shows it | evidently intended | confidence | as-written member | corrected member |
|---|---|---|---|---|---|---|
| src/App.jsx:365-368 | the inline TAB reader takes the count from the first line before blank lines are dropped, and blank lines inside the window use up the count | `3`, an empty line, then `1 2`, `3 4`, `5 6`: the file is recognised, but only two points are read | read the declared number of data lines, counted the way `isRelabTabFile` counts them | not executed; high | `SelfDescribingTab.BlankAfterCountLosesRow` | `SelfDescribingTab.IntendedReadsDeclaredCount` |
| Release/src/App.jsx:124-184 | `handleFiles` lists only `traces.length` as a dependency, so it keeps reading the label store of the render where the trace count last changed | an empty viewer; drop `a.xml` alone (no trace is added), then drop `a.tab`: the TAB file is read by `parseDPT` instead of with its label | read the labels loaded so far, as the current build does by listing `relabMeta` among its dependencies | not executed; high | `Release.LabelThenTab` | `Release.IntendedUsesLabel` |
| src/App.jsx:499 | `clearAll` empties traces, names and flags but not `traceGroupIds` | one trace in group 2 with group 1 active; `clearAll`; load one file: it gets membership `2` and is not drawn | empty the memberships with the other lists | not executed; high | `Viewer.ClearAllMisgroups` | `Viewer.ClearAllIntendedRegroups` |
