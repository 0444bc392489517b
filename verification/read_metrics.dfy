/** `readMetricsFromFile`: open the file, dispatch on the declared input type, check the
    extension again, and decode. Opening, reading and decoding are library calls; their
    outcomes for one path are given as a `FileView`. */
module ReadMetrics {
  import opened Base
  import opened Records
  import opened FileType
  import opened CsvRows

  /** What the operating system and the decoding libraries yield for one path:
      whether os.Open fails, what reading the whole file and json.Unmarshal produce, and
      what csv.Reader's tokenizer produces (records split into fields, before its
      field-count rule). */
  datatype FileView = FileView(
    openError: Option<string>,
    jsonDecoded: Outcome<seq<Metric>>,
    csvTokens: Outcome<seq<seq<string>>>)

  /** `readMetricsFromFile(filename, fileType)`. */
  function ReadMetricsFromFile(filename: string, fileType: string, view: FileView): (r: Outcome<seq<Metric>>)
    ensures view.openError.Some? ==> r == Err(OsError(view.openError.value))
    ensures r.Ok? ==> (fileType == JsonType && IsJsonFile(filename))
                      || (fileType == CsvType && IsCsvFile(filename))
  {
    if view.openError.Some? then Err(OsError(view.openError.value))
    else if fileType == JsonType then
      if !IsJsonFile(filename) then Err(UnexpectedFileType)
      else view.jsonDecoded
    else if fileType == CsvType then
      if !IsCsvFile(filename) then Err(UnexpectedFileType)
      else
        var records :- view.csvTokens;
        ReadCsvRecords(records)
    else Err(UnsupportedFileType(fileType))
  }

  /** A declared type other than "json" or "csv" is unsupported once the file opens. */
  lemma UnsupportedTypeRejected(filename: string, fileType: string, view: FileView)
    requires view.openError.None?
    requires fileType != JsonType && fileType != CsvType
    ensures ReadMetricsFromFile(filename, fileType, view) == Err(UnsupportedFileType(fileType))
  {
  }

  /** A declared type whose extension the file does not carry gives
      errUnexpectedFileType, before the file is read or decoded. */
  lemma MismatchedExtensionRejected(filename: string, fileType: string, v1: FileView, v2: FileView)
    requires v1.openError.None? && v2.openError.None?
    requires (fileType == JsonType && !IsJsonFile(filename)) || (fileType == CsvType && !IsCsvFile(filename))
    ensures ReadMetricsFromFile(filename, fileType, v1) == Err(UnexpectedFileType)
    ensures ReadMetricsFromFile(filename, fileType, v1) == ReadMetricsFromFile(filename, fileType, v2)
  {
  }

  /** A CSV file with a data row whose field count differs from three fails, whether
      csv.Reader's field-count rule or the row loop catches it; no metrics come back.
      Under a three-field header it is csv.Reader's error, naming the first such row. */
  lemma CsvMalformedRowFailsRead(filename: string, view: FileView, j: nat)
    requires view.openError.None? && IsCsvFile(filename) && view.csvTokens.Ok?
    requires 1 <= j < |view.csvTokens.value| && |view.csvTokens.value[j]| != 3
    ensures ReadMetricsFromFile(filename, CsvType, view).Err?
    ensures |view.csvTokens.value[0]| == 3 ==>
      exists i :: 1 <= i <= j && |view.csvTokens.value[i]| != 3
                  && (forall k :: 1 <= k < i ==> |view.csvTokens.value[k]| == 3)
                  && ReadMetricsFromFile(filename, CsvType, view) == Err(CsvFieldCount(view.csvTokens.value[i]))
  {
    var records := view.csvTokens.value;
    if ReaderFieldCount(records).Ok? {
      MalformedRowFails(records, j);
    }
  }

  /** A file declared "json" that opens and carries the .json extension reads as whatever
      the decoder yields: its metrics, or its error unchanged. */
  lemma JsonReadIsDecoded(filename: string, view: FileView)
    requires view.openError.None? && IsJsonFile(filename)
    ensures ReadMetricsFromFile(filename, JsonType, view) == view.jsonDecoded
  {
  }

  /** A file declared "csv" that opens and carries the .csv extension returns the
      tokenizer's error unchanged, and otherwise the reader's rule followed by the row loop. */
  lemma CsvReadIsTokensThenRows(filename: string, view: FileView)
    requires view.openError.None? && IsCsvFile(filename)
    ensures ReadMetricsFromFile(filename, CsvType, view) ==
      match view.csvTokens
      case Err(e) => Err(e)
      case Ok(records) => ReadCsvRecords(records)
  {
  }

  /** A well-formed CSV read, with all rows of three fields, is the row loop's output. */
  lemma CsvReadIsRowLoop(filename: string, view: FileView)
    requires view.openError.None? && IsCsvFile(filename) && view.csvTokens.Ok?
    requires forall i :: 0 <= i < |view.csvTokens.value| ==> |view.csvTokens.value[i]| == 3
    ensures ReadMetricsFromFile(filename, CsvType, view) == ParseCsvRecords(view.csvTokens.value)
  {
  }
}
