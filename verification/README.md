# metric-summary in Dafny

This project models metric-summary's ingestion, filter, aggregate and emit pipeline. The tool reads a directory of metric files, either CSV or JSON. It keeps the metrics whose timestamp lies strictly inside a time window and sums their values per level name. It then emits the sums as JSON or YAML under `summary/`.

Everything modelled lives in `cmd/data.go`. The Dafny modules follow its parts:

| module | file | what it holds |
|---|---|---|
| `Base` | base.dfy | `Option` and a failure-compatible `Result` |
| `Text` | text.dfy | the Go library pieces the core relies on: ASCII `strings.ToLower`, `filepath.Ext` and `filepath.Join` with '/' separators, ASCII `strings.TrimSpace`, and `strconv.Atoi` with a 64-bit `int` |
| `Records` | records.dfy | `metric`, `summaryResult`, directory entries, the run configuration `ProcessMetric`, the error values and the type constants |
| `FileType` | file_type.dfy | `isJSONFile`, `isCSVFile`, `validateFileTypeFromFile` |
| `CsvRows` | csv_rows.dfy | csv.Reader's field-count rule, and the CSV loop of `readMetricsFromFile` |
| `ReadMetrics` | read_metrics.dfy | `readMetricsFromFile`: open, dispatch on the declared type, extension check, decode |
| `Aggregate` | aggregate.dfy | the window filter and the per-level sum; `Total`, a reference definition that does not depend on order |
| `Output` | output.dfy | the serialiser choice, `getOutputFileName` and the output path |
| `Pipeline` | pipeline.dfy | `ProcessMetricData`: validation, the read loop, the fold, and the map-to-slice conversion |
| `Scenarios` | scenarios.dfy | the two runs of `cmd/data_test.go` on a constructed one-file listing whose rows reproduce the test's expected totals; the test's own files under `../metrics/csv/` are not part of this model |

The model takes its inputs from outside instead of doing I/O:

- **The file system and the decoders** are one parameter, `fs: string -> FileView`. For a path, `FileView` gives:
  - whether `os.Open` fails;
  - what `io.ReadAll` followed by `json.Unmarshal` yields;
  - what the tokenizer of `csv.Reader` yields, as records split into fields, before its field-count rule.
- **The directory listing** is the `files` field of `ProcessMetric`. Each entry is a name and an is-directory flag.
- **Timestamp parsing** (`time.Parse` with RFC 3339) is the parameter `parseTs: string -> Option<int>`. `None` is a parse failure.
- **The window bounds** are instants on the same integer time line.

### Behaviour of cmd/data.go worth knowing

- **Directories pass validation but are then read.** `validateFileTypeFromFile` skips directory entries (cmd/data.go:243-245), but the read loop (cmd/data.go:78-84) does not. Take a sub-directory whose name has no '.'. Suppose the declared type is "json" or "csv", the rest of the listing passes validation, the sub-directory is the first entry read, and opening its path succeeds. Then the extension check inside `readMetricsFromFile` fails for it, and the whole run ends with errUnexpectedFileType. `Pipeline.DirectoryEntryAbortsRun` proves this under exactly these conditions. An entry read later only ends the run this way when every entry before it reads.
- **The declared input type is not used by validation.** The validator checks each name against the global list `.json`, `.csv` (cmd/data.go:62, 72). So a `.csv` file passes validation even when "json" is declared. It is then rejected inside `readMetricsFromFile`.
- **Most wrong-width rows are rejected by csv.Reader, not by the loop.** `csv.Reader` keeps `FieldsPerRecord` at 0 (cmd/data.go:140-141), so every record must have as many fields as the first record. A data row without three fields under a three-field header therefore fails with csv.Reader's field-count error. The loop's "invalid CSV record" error (cmd/data.go:153-155) is only reached when the header itself does not have three fields. `CsvRows.ReaderThenLoop` states this.
- **Every output type except "yaml" means JSON.** The choice is made at cmd/data.go:185-197 and cmd/data.go:224-228. An unrecognised type such as "xml" gives JSON and `out.json`.

## Model

| member | source | states |
|---|---|---|
| Text.Ext | cmd/data.go:232 | `filepath.Ext`: the result is the suffix starting at the last '.' of the final path element, or empty when that element has no '.' |
| Text.ExtensionUnique | cmd/data.go:232 | a path has exactly one extension in that sense, so `Ext` is pinned down by its contract |
| Text.ExtOfJoin | cmd/data.go:79 | putting the directory in front of a file name (one without '/') does not change its extension |
| Text.JoinPath | cmd/data.go:79 | the joined path starts with the directory and ends with the name; when both are non-empty exactly one '/' separates them, and an empty side leaves the other unchanged |
| Text.ToLower | cmd/data.go:246-249 | lower-casing keeps the length; each upper-case letter becomes its lower-case letter (32 code points further on) and every other character is unchanged, so no upper-case letter is left |
| Text.LowerAfterUpper | cmd/data.go:246-249 | lower-casing gives the same result whatever the original letter case was |
| Text.ExtOfUpper | cmd/data.go:246 | upper-casing a path gives the upper-cased extension |
| Text.TrimSpace | cmd/data.go:159 | the result neither starts nor ends with white space, and the input is the result with white space on either side |
| Text.TrimSpacePadded | cmd/data.go:159 | trimming a value padded with white space gives back exactly that value |
| Text.Atoi | cmd/data.go:159 | a parsed value fits in int64, and the text is an optional sign followed by digits only; a negative value had a '-'; the value of each spelling is stated by AtoiSpelling and AtoiOnlySpellings |
| Text.AtoiItoa | cmd/data.go:159 | every int64 written in decimal parses back to itself |
| Text.PaddedNumberParses | cmd/data.go:159 | a decimal int64 with white space around it parses once trimmed |
| Text.AtoiRejects | cmd/data.go:159-163 | text holding a character that is neither a digit nor a leading sign does not parse |
| Text.AtoiRejectsNoDigits | cmd/data.go:159-163 | the empty string and a lone '+' or '-' do not parse |
| Text.AtoiSpelling | cmd/data.go:159-163 | every spelling made of an optional sign, leading zeros and the decimal digits of n parses to the signed n when that fits in int64, and fails otherwise |
| Text.AtoiOnlySpellings | cmd/data.go:159-163 | every string that parses is such a spelling, and its value is the signed magnitude of that spelling |
| Text.AtoiLenientSpellings | cmd/data.go:159-163 | leading zeros, a '+' and a negative zero are accepted: "007" is 7, "+5" is 5, "-0" is 0 |
| FileType.ValidateFileTypeFromFile | cmd/data.go:241-259 | the answer is true exactly when every entry that is not a directory has a lower-cased extension equal to one of the lower-cased valid extensions |
| FileType.IsJsonFile | cmd/data.go:231-234 | true exactly when the path's extension, lower-cased, is ".json" |
| FileType.IsCsvFile | cmd/data.go:236-239 | true exactly when the path's extension, lower-cased, is ".csv" |
| FileType.AllowedIsJsonOrCsv | cmd/data.go:231-239 | with the built-in list, a name is accepted exactly when `isJSONFile` or `isCSVFile` holds for it |
| FileType.ValidationMeansJsonOrCsv | cmd/data.go:61-76 | the validator accepts a listing with the built-in list exactly when every regular entry is a JSON file or a CSV file |
| FileType.DirectoriesIgnored | cmd/data.go:243-245 | adding directory entries at either end of a listing never changes the validator's verdict |
| FileType.ValidationIgnoresCase | cmd/data.go:246-249 | upper-casing every entry name does not change the verdict |
| CsvRows.ParseDataRows | cmd/data.go:147-172 | the loop succeeds exactly when every data row has three fields, and yields at most one metric per row |
| CsvRows.FirstMalformedRowReported | cmd/data.go:153-155 | a failing loop reports the first data row without three fields; every row before it has three fields |
| CsvRows.ParseCsvRecords | cmd/data.go:146-151 | empty input gives no metrics; otherwise the first record is dropped, and the outcome is success exactly when every later record has three fields |
| CsvRows.ReaderFieldCount | cmd/data.go:140-144 | csv.Reader's rule: the records pass unchanged exactly when all have the first record's field count; the error names the first record that does not, every record before it matching |
| CsvRows.HeaderIgnored | cmd/data.go:146-151 | the result does not depend on the header's content |
| CsvRows.MalformedRowFails | cmd/data.go:153-155 | a data row without three fields makes the loop fail, reporting the first data row without three fields, which is no later than that row |
| CsvRows.ParseDataRowsAppend | cmd/data.go:147-172 | the loop over `a + b` is the loop over `a` and then over `b`: the first error wins, and otherwise the outputs are concatenated in order |
| CsvRows.GoodRowYieldsMetric | cmd/data.go:157-171 | a three-field row whose trimmed value parses yields the metric (timestamp, level name, value) |
| CsvRows.BadValueRowSkipped | cmd/data.go:159-164 | a three-field row whose value does not parse is dropped, and the rest of the input behaves as if it were absent |
| CsvRows.AllRowsKept | cmd/data.go:157-171 | when every row is well-formed and parses, the output has one metric per row, in row order, built from that row |
| CsvRows.RowsRoundTrip | cmd/data.go:157-171 | metrics written as rows with their decimal values are read back unchanged by the loop |
| CsvRows.ReaderThenLoop | cmd/data.go:140-155 | once csv.Reader's rule has passed, the CSV path fails exactly when the header does not have three fields and a data row follows it |
| CsvRows.RowMetric | cmd/data.go:153-171 | a record yields a metric exactly when it has three fields and its trimmed value parses; the metric carries the record's timestamp, level name and parsed value |
| CsvRows.ReadCsvRecords | cmd/data.go:140-172 | the CSV path succeeds exactly when every record has the first record's field count and, when data rows follow the header, that count is three; it yields at most one metric per data row; a failure of csv.Reader's rule is returned as that error unchanged; past the rule its only error names the first data row |
| ReadMetrics.ReadMetricsFromFile | cmd/data.go:112-178 | an open failure is returned first; a success means the declared type is "json" or "csv" and the file carries that extension |
| ReadMetrics.UnsupportedTypeRejected | cmd/data.go:173-175 | a declared type other than "json" or "csv" is reported as unsupported, naming that type |
| ReadMetrics.MismatchedExtensionRejected | cmd/data.go:121-138 | a declared type the extension does not match gives errUnexpectedFileType, whatever the file holds |
| ReadMetrics.CsvMalformedRowFailsRead | cmd/data.go:140-155 | a CSV file with a data row of other than three fields yields an error and no metrics; under a three-field header that error is csv.Reader's field-count error naming the first such row |
| ReadMetrics.CsvReadIsRowLoop | cmd/data.go:134-172 | a CSV file whose records all have three fields reads as the row loop's output |
| ReadMetrics.JsonReadIsDecoded | cmd/data.go:121-133 | a file that opens, declared "json" and named as a JSON file, reads as exactly what the decoder yields, error or metrics |
| ReadMetrics.CsvReadIsTokensThenRows | cmd/data.go:134-172 | a file that opens, declared "csv" and named as a CSV file, passes the tokenizer's error through unchanged and otherwise reads as csv.Reader's rule followed by the row loop |
| Aggregate.Summarize | cmd/data.go:86-96 | the map folded from the empty map has exactly the level names of in-window metrics as keys, each holding its total |
| Aggregate.AddMetric | cmd/data.go:87-95 | a metric with an unparsable timestamp or outside the window leaves the map as it was; one inside adds its level name as a key, whose value becomes the old total (zero when absent) plus the metric's value, and every other key keeps its value |
| Aggregate.Accumulate | cmd/data.go:86-96 | the fold keeps every key of the starting map, and a key that no metric names keeps its value |
| Aggregate.AccumulateMeetsTotals | cmd/data.go:86-96 | from any starting map, the fold adds each level name's in-window total to that name's value (Go's zero value when absent) and adds exactly the observed names |
| Aggregate.SummaryUnique | cmd/data.go:93-94 | keys and totals determine the summary: two maps that meet them are equal |
| Aggregate.TotalAppend | cmd/data.go:78-97 | a level name's total over two concatenated metric sequences is the sum of the two totals |
| Aggregate.TotalPermutation | cmd/data.go:86-96 | a level name's total depends only on the multiset of metrics |
| Aggregate.SummaryIsOrderIndependent | cmd/data.go:86-96 | permuting the metrics does not change the summary |
| Aggregate.AccumulateAppend | cmd/data.go:78-97 | folding file after file is folding their concatenation |
| Aggregate.WindowIsOpen | cmd/data.go:87-95 | a metric whose timestamp does not parse, or falls exactly on a bound, changes nothing; one strictly inside adds its value under its level name |
| Output.OutputFormat | cmd/data.go:185-197 | YAML is chosen exactly for the output type "yaml" |
| Output.GetOutputFileName | cmd/data.go:219-229 | the name is never empty; a non-empty override wins; otherwise the default's extension matches the chosen serialiser |
| Output.DefaultOutputPaths | cmd/data.go:210 | without an override the file is summary/out.yaml for "yaml" and summary/out.json otherwise |
| Output.OutputPath | cmd/data.go:210 | the joined output path, taken before `filepath.Clean`, is "summary/" followed by a non-empty name, and a non-empty override appears there as given |
| Output.OutputPathExtension | cmd/data.go:210-229 | the joined output path, taken before `filepath.Clean`, keeps the extension of an override without '/', and without an override carries the extension of the chosen serialiser |
| Pipeline.ReadAllEntries | cmd/data.go:78-84 | reading succeeds exactly when every entry reads; an error is the error of some entry |
| Pipeline.ReadEntry | cmd/data.go:79-80 | a path that cannot be opened fails the read; a read of a non-empty entry name without '/' succeeds only when the declared type is "json" and `isJSONFile` holds for the name, or "csv" and `isCSVFile` holds |
| Pipeline.ProcessFiles | cmd/data.go:78-97 | the file loop succeeds exactly when every file reads; its error is that of the first failing file, the files before it all reading; success keeps every key of the starting map |
| Pipeline.ReadAllOne | cmd/data.go:78-84 | reading a one-entry listing is reading that entry |
| Pipeline.ReadAllAppend | cmd/data.go:78-84 | reading `a + b`: an error in `a` wins, then an error in `b`; otherwise the metrics of `a` followed by those of `b` |
| Pipeline.ProcessMetricData | cmd/data.go:67-109 | an invalid listing ends the run with errUnexpectedFileType; success means the listing is valid and every entry reads, and then the sums meet the reference definition over all metrics read, with the chosen format and path |
| Pipeline.ToSummaryResults | cmd/data.go:100-103 | one row per key, with its total, and no level name twice |
| Pipeline.ProcessFilesIsReadThenSum | cmd/data.go:78-97 | the loop that folds file by file equals reading every file first and then folding the concatenation |
| Pipeline.ValidationFailsFirst | cmd/data.go:72-76 | a failed validation ends the run the same way whatever the files hold, so no file is read |
| Pipeline.ReadAllFirstError | cmd/data.go:80-84 | the first failing entry decides the error of the read loop |
| Pipeline.FirstReadErrorAborts | cmd/data.go:78-84 | after validation, the first failing entry's error is the run's error |
| Pipeline.RecordOrderIrrelevant | cmd/data.go:78-103 | two listings that read the same multiset of metrics produce the same run result |
| Pipeline.DirectoryEntryAbortsRun | cmd/data.go:78-84 | a sub-directory without '.' in its name passes validation and then ends the run with errUnexpectedFileType |
| Scenarios.ScenarioRowsParse | cmd/data.go:146-172 | the constructed data rows, including one whose value is "n/a", read as the seven metrics they were built from |
| Scenarios.CsvDirectorySummary | cmd/data_test.go:13-62 | on a constructed one-file CSV listing whose rows reproduce the test's expected totals, the run summarised as JSON yields exactly lobby_screen 505, main_menu 80, options 60, help 50 and level1 520, written to summary/out.json |
| Scenarios.CsvDirectoryDeclaredJson | cmd/data_test.go:64-96 | the same constructed listing declared as JSON ends with errUnexpectedFileType |

## Left out

- File I/O is a parameter, not modelled: `os.Open`, `io.ReadAll`, `os.MkdirAll`, `os.WriteFile` and the permission 0644.
- `json.Unmarshal` is left abstract. Its outcome for a file is part of `FileView`.
- The CSV tokenizer (quoting, line splitting, syntax errors) is left abstract. Its outcome for a file is part of `FileView`. Its field-count rule is modelled.
- Errors of the tokenizer and of the field-count rule are not ordered against each other. csv.Reader reports whichever comes first in the file. The model treats a tokenizer error as coming first.
- `time.Parse` with RFC 3339 and the `time.Time` comparisons are a parameter. Instants are integers on one line, so time zones are not modelled.
- Text.ToLower, Text.TrimSpace: `strings.ToLower` and `strings.TrimSpace` are modelled on ASCII only. The Unicode letters and Unicode white space the Go functions also handle are left out.
- Text.Ext: `filepath.Ext` is modelled with the '/' separator only. Windows separators and volume names are not modelled.
- Output.OutputPath, Output.OutputPathExtension: the path is the one before `filepath.Clean`, which Go's `filepath.Join` applies. For the default names and for an override that is a file name without '/', other than "." and "..", the two agree. For other overrides they differ: "../x.json" is written to "x.json", outside summary/, and "./r.json" to "summary/r.json". For the override "." the written path is "summary", which has no extension, while the lemma gives ".".
- Text.JoinPath does not apply `filepath.Clean`. Repeated or trailing separators and "." or ".." elements are kept as written; the extension of a joined plain name is the same either way.
- Aggregate.AddMetric, Aggregate.Accumulate: sums are unbounded integers. Go's `int` wraps around on overflow when very large values are summed.
- Pipeline.ToSummaryResults: the order of the result rows is not stated, because Go's map iteration order is unspecified.
- JSON and YAML serialisation, printing to standard output, and `os.Exit` on a serialisation or write failure are left out. `summaryMetrics` is modelled only through the choice of format and path. An empty summary leaves the Go slice nil, so JSON prints "null"; the model does not cover this.
- The diagnostic lines printed for skipped rows, skipped timestamps and errors are left out.
- `NewProcessMetric` only copies its arguments into the record. It is the `ProcessMetric` datatype's constructor.
- `main.go` is not part of this model: flag parsing, `os.ReadDir` and exit codes.
