/** The entities of the metric pipeline: one observation, one aggregated row, a
    directory entry, the run's configuration and the errors a run can end with. */
module Records {
  import opened Base

  /** One metric observation (`metric`): the timestamp is still text, parsed later. */
  datatype Metric = Metric(timestamp: string, levelName: string, value: int)

  /** One row of the emitted summary (`summaryResult`). */
  datatype SummaryResult = SummaryResult(levelName: string, totalValue: int)

  /** What a directory listing says about one entry: its name and whether it is a directory. */
  datatype DirEntry = DirEntry(name: string, isDir: bool)

  /** The configuration of one run (`ProcessMetric`). The window bounds are instants
      already parsed by the caller, written as integers on one time line. */
  datatype ProcessMetric = ProcessMetric(
    files: seq<DirEntry>,
    directory: string,
    fileType: string,
    outputFileType: string,
    outputFileName: string,
    startTime: int,
    endTime: int)

  /** The errors a run can return. Library failures keep their message as text. */
  datatype Error =
    | UnexpectedFileType                         // errUnexpectedFileType
    | UnsupportedFileType(fileType: string)      // "unsupported file type: %s"
    | InvalidCsvRecord(record: seq<string>)      // "invalid CSV record: %v"
    | CsvFieldCount(record: seq<string>)         // csv.ErrFieldCount from csv.Reader
    | OsError(message: string)                   // os.Open / io.ReadAll failures
    | DecodeError(message: string)               // json.Unmarshal or CSV syntax failures

  type Outcome<T> = Result<T, Error>

  const JsonType := "json"
  const YamlType := "yaml"
  const CsvType := "csv"
}
