/** `ProcessMetricData`: validate the listing, read every entry in order, fold the
    in-window metrics into per-level sums, convert the map to result rows and hand them
    to `summaryMetrics`. Any read error ends the run before anything is emitted. */
module Pipeline {
  import opened Base
  import opened Text
  import opened Records
  import opened FileType
  import opened ReadMetrics
  import opened Aggregate
  import opened Output

  /** What `summaryMetrics` is given on a successful run: the per-level sums, the
      serialisation format, and the path of the file written. */
  datatype Emission = Emission(summary: map<string, int>, format: Format, path: string)

  /** Reading one directory entry, as the loop does it. */
  type Reader = DirEntry -> Outcome<seq<Metric>>

  function WindowOf(pm: ProcessMetric): Window
  {
    Window(pm.startTime, pm.endTime)
  }

  /** `filepath.Join(*pm.directory, file.Name())` followed by `readMetricsFromFile`. */
  function ReadEntry(pm: ProcessMetric, fs: string -> FileView, entry: DirEntry): (r: Outcome<seq<Metric>>)
    ensures fs(JoinPath(pm.directory, entry.name)).openError.Some? ==> r.Err?
    ensures r.Ok? && entry.name != "" && '/' !in entry.name ==>
      (pm.fileType == JsonType && IsJsonFile(entry.name)) || (pm.fileType == CsvType && IsCsvFile(entry.name))
  {
    var filename := JoinPath(pm.directory, entry.name);
    assert entry.name != "" && '/' !in entry.name ==> Ext(filename) == Ext(entry.name) by {
      if entry.name != "" && '/' !in entry.name {
        ExtOfJoin(pm.directory, entry.name);
      }
    }
    ReadMetricsFromFile(filename, pm.fileType, fs(filename))
  }

  /** The reader a run uses, for the configured directory and declared type. */
  function EntryReader(pm: ProcessMetric, fs: string -> FileView): Reader
  {
    entry => ReadEntry(pm, fs, entry)
  }

  /** The loop over the entries as written: read one file, fold its metrics into the
      running summary, go on; the first read error is returned as is. */
  function ProcessFiles(read: Reader, w: Window, parseTs: string -> Option<int>,
                        files: seq<DirEntry>, summary: map<string, int>): (r: Outcome<map<string, int>>)
    ensures r.Ok? <==> forall i :: 0 <= i < |files| ==> read(files[i]).Ok?
    ensures r.Err? ==> exists i :: 0 <= i < |files| && read(files[i]) == Err(r.error)
                                   && forall j :: 0 <= j < i ==> read(files[j]).Ok?
    ensures r.Ok? ==> summary.Keys <= r.value.Keys
    decreases |files|
  {
    if files == [] then Ok(summary)
    else
      assert forall i :: 1 <= i < |files| ==> files[i] == files[1..][i - 1];
      var metrics :- read(files[0]);
      ProcessFiles(read, w, parseTs, files[1..], Accumulate(summary, metrics, w, parseTs))
  }

  /** Every entry read in listing order, the metrics concatenated; the first error wins. */
  function ReadAllEntries(read: Reader, files: seq<DirEntry>): (r: Outcome<seq<Metric>>)
    ensures r.Ok? <==> forall i :: 0 <= i < |files| ==> read(files[i]).Ok?
    ensures r.Err? ==> exists i :: 0 <= i < |files| && read(files[i]) == Err(r.error)
  {
    if files == [] then Ok([])
    else
      var head := read(files[0]);
      var tail := ReadAllEntries(read, files[1..]);
      assert forall i :: 1 <= i < |files| ==> files[i] == files[1..][i - 1];
      if head.Err? then Err(head.error)
      else if tail.Err? then Err(tail.error)
      else Ok(head.value + tail.value)
  }

  /** `ProcessMetricData`. */
  function ProcessMetricData(pm: ProcessMetric, fs: string -> FileView, parseTs: string -> Option<int>): (r: Outcome<Emission>)
    ensures !AllFilesAllowed(pm.files, ValidExtensionFile) ==> r == Err(UnexpectedFileType)
    ensures r.Ok? <==> AllFilesAllowed(pm.files, ValidExtensionFile)
                       && forall i :: 0 <= i < |pm.files| ==> ReadEntry(pm, fs, pm.files[i]).Ok?
    ensures r.Ok? ==> IsSummaryOf(r.value.summary, ReadAllEntries(EntryReader(pm, fs), pm.files).value,
                                  WindowOf(pm), parseTs)
    ensures r.Ok? ==> r.value.format == OutputFormat(pm.outputFileType)
                      && r.value.path == OutputPath(pm.outputFileName, pm.outputFileType)
  {
    if !AllFilesAllowed(pm.files, ValidExtensionFile) then Err(UnexpectedFileType)
    else
      var read := EntryReader(pm, fs);
      ProcessFilesIsReadThenSum(read, WindowOf(pm), parseTs, pm.files, map[]);
      var summary :- ProcessFiles(read, WindowOf(pm), parseTs, pm.files, map[]);
      assert summary == Summarize(ReadAllEntries(read, pm.files).value, WindowOf(pm), parseTs);
      Ok(Emission(summary, OutputFormat(pm.outputFileType), OutputPath(pm.outputFileName, pm.outputFileType)))
  }

  /** The converted result slice: one row per key of the summary, in whatever order the
      map is iterated (Go leaves that order unspecified, so the choice here is free). */
  method ToSummaryResults(summary: map<string, int>) returns (result: seq<SummaryResult>)
    ensures |result| == |summary|
    ensures forall r :: r in result ==> r.levelName in summary && summary[r.levelName] == r.totalValue
    ensures forall key :: key in summary ==> SummaryResult(key, summary[key]) in result
    ensures forall i, j :: 0 <= i < j < |result| ==> result[i].levelName != result[j].levelName
  {
    result := [];
    var remaining := summary.Keys;
    while remaining != {}
      invariant remaining <= summary.Keys
      invariant |result| + |remaining| == |summary.Keys|
      invariant forall r :: r in result ==> r.levelName in summary.Keys - remaining && summary[r.levelName] == r.totalValue
      invariant forall key :: key in summary.Keys - remaining ==> SummaryResult(key, summary[key]) in result
      invariant forall i, j :: 0 <= i < j < |result| ==> result[i].levelName != result[j].levelName
      decreases |remaining|
    {
      var key :| key in remaining;
      result := result + [SummaryResult(key, summary[key])];
      remaining := remaining - {key};
    }
  }

  // ---------------------------------------------------------------------------
  // Lemmas
  // ---------------------------------------------------------------------------

  /** Folding file by file equals reading everything first and folding the concatenation. */
  lemma {:induction false} ProcessFilesIsReadThenSum(read: Reader, w: Window, parseTs: string -> Option<int>,
                                                      files: seq<DirEntry>, summary: map<string, int>)
    ensures ProcessFiles(read, w, parseTs, files, summary) ==
      (match ReadAllEntries(read, files)
       case Err(e) => Err(e)
       case Ok(metrics) => Ok(Accumulate(summary, metrics, w, parseTs)))
    decreases |files|
  {
    if files != [] {
      var head := read(files[0]);
      if head.Ok? {
        var next := Accumulate(summary, head.value, w, parseTs);
        ProcessFilesIsReadThenSum(read, w, parseTs, files[1..], next);
        var tail := ReadAllEntries(read, files[1..]);
        if tail.Ok? {
          AccumulateAppend(summary, head.value, tail.value, w, parseTs);
        }
      }
    }
  }

  /** Reading one entry gives exactly that entry's outcome. */
  lemma ReadAllOne(read: Reader, entry: DirEntry)
    ensures ReadAllEntries(read, [entry]) == read(entry)
  {
    var r := read(entry);
    if r.Ok? {
      assert r.value + [] == r.value;
    }
  }

  /** Reading `a + b` reads `a` and then `b`: the first error wins, and otherwise the
      metrics are those of `a` followed by those of `b`. */
  lemma {:induction false} ReadAllAppend(read: Reader, a: seq<DirEntry>, b: seq<DirEntry>)
    ensures ReadAllEntries(read, a).Err? ==> ReadAllEntries(read, a + b) == ReadAllEntries(read, a)
    ensures ReadAllEntries(read, a).Ok? && ReadAllEntries(read, b).Err? ==>
      ReadAllEntries(read, a + b) == ReadAllEntries(read, b)
    ensures ReadAllEntries(read, a).Ok? && ReadAllEntries(read, b).Ok? ==>
      ReadAllEntries(read, a + b) == Ok(ReadAllEntries(read, a).value + ReadAllEntries(read, b).value)
  {
    if ReadAllEntries(read, a).Err? {
      ReadAllAppendFailed(read, a, b);
    } else {
      ReadAllAppendRead(read, a, b);
    }
  }

  /** A failing prefix fails the whole listing with its own error. */
  lemma {:induction false} ReadAllAppendFailed(read: Reader, a: seq<DirEntry>, b: seq<DirEntry>)
    requires ReadAllEntries(read, a).Err?
    ensures ReadAllEntries(read, a + b) == ReadAllEntries(read, a)
  {
    assert a != [];
    assert (a + b)[0] == a[0] && (a + b)[1..] == a[1..] + b;
    if read(a[0]).Ok? {
      ReadAllAppendFailed(read, a[1..], b);
    }
  }

  /** After a prefix that reads, the rest decides: its error, or both lists of metrics. */
  lemma ReadAllAppendRead(read: Reader, a: seq<DirEntry>, b: seq<DirEntry>)
    requires ReadAllEntries(read, a).Ok?
    ensures ReadAllEntries(read, b).Err? ==> ReadAllEntries(read, a + b) == ReadAllEntries(read, b)
    ensures ReadAllEntries(read, b).Ok? ==>
      ReadAllEntries(read, a + b) == Ok(ReadAllEntries(read, a).value + ReadAllEntries(read, b).value)
  {
    if ReadAllEntries(read, b).Err? {
      ReadAllAppendLaterError(read, a, b);
    } else {
      ReadAllAppendBothRead(read, a, b);
    }
  }

  /** After a prefix that reads, an error in the rest is the error of the whole. */
  lemma {:induction false} ReadAllAppendLaterError(read: Reader, a: seq<DirEntry>, b: seq<DirEntry>)
    requires ReadAllEntries(read, a).Ok? && ReadAllEntries(read, b).Err?
    ensures ReadAllEntries(read, a + b) == ReadAllEntries(read, b)
  {
    if a == [] {
      assert a + b == b;
    } else {
      ReadAllStep(read, a);
      ReadAllAppendLaterError(read, a[1..], b);
      assert (a + b)[0] == a[0] && (a + b)[1..] == a[1..] + b;
      ReadAllStep(read, a + b);
    }
  }

  /** When both parts read, the whole reads as the first part's metrics then the second's. */
  lemma {:induction false} ReadAllAppendBothRead(read: Reader, a: seq<DirEntry>, b: seq<DirEntry>)
    requires ReadAllEntries(read, a).Ok? && ReadAllEntries(read, b).Ok?
    ensures ReadAllEntries(read, a + b) == Ok(ReadAllEntries(read, a).value + ReadAllEntries(read, b).value)
  {
    var tb := ReadAllEntries(read, b).value;
    if a == [] {
      assert a + b == b;
      assert [] + tb == tb;
    } else {
      ReadAllStep(read, a);
      ReadAllAppendBothRead(read, a[1..], b);
      assert (a + b)[0] == a[0] && (a + b)[1..] == a[1..] + b;
      ReadAllStep(read, a + b);
      MetricsAssociate(read(a[0]).value, ReadAllEntries(read, a[1..]).value, tb);
    }
  }

  lemma MetricsAssociate(x: seq<Metric>, y: seq<Metric>, z: seq<Metric>)
    ensures x + (y + z) == (x + y) + z
  {
  }

  /** One step of the read loop: the first entry's error, or its metrics before the rest's. */
  lemma ReadAllStep(read: Reader, files: seq<DirEntry>)
    requires files != []
    ensures read(files[0]).Err? ==> ReadAllEntries(read, files) == Err(read(files[0]).error)
    ensures read(files[0]).Ok? && ReadAllEntries(read, files[1..]).Err? ==>
      ReadAllEntries(read, files) == ReadAllEntries(read, files[1..])
    ensures read(files[0]).Ok? && ReadAllEntries(read, files[1..]).Ok? ==>
      ReadAllEntries(read, files) == Ok(read(files[0]).value + ReadAllEntries(read, files[1..]).value)
  {
  }

  /** Validation failure ends the run with errUnexpectedFileType before any file is
      read: the outcome is the same whatever the files hold. */
  lemma ValidationFailsFirst(pm: ProcessMetric, fs1: string -> FileView, fs2: string -> FileView, parseTs: string -> Option<int>)
    requires !AllFilesAllowed(pm.files, ValidExtensionFile)
    ensures ProcessMetricData(pm, fs1, parseTs) == ProcessMetricData(pm, fs2, parseTs) == Err(UnexpectedFileType)
  {
  }

  /** The first entry whose read fails decides the error of the whole read loop. */
  lemma {:induction false} ReadAllFirstError(read: Reader, files: seq<DirEntry>, k: nat)
    requires k < |files| && read(files[k]).Err?
    requires forall i :: 0 <= i < k ==> read(files[i]).Ok?
    ensures ReadAllEntries(read, files) == Err(read(files[k]).error)
    decreases k
  {
    if k > 0 {
      assert forall i :: 0 <= i < k - 1 ==> files[1..][i] == files[i + 1];
      ReadAllFirstError(read, files[1..], k - 1);
    }
  }

  /** Once validation passes, the first entry whose read fails decides the run's error;
      the entries after it are never read and no summary is emitted. */
  lemma FirstReadErrorAborts(pm: ProcessMetric, fs: string -> FileView, parseTs: string -> Option<int>, k: nat)
    requires AllFilesAllowed(pm.files, ValidExtensionFile)
    requires k < |pm.files| && ReadEntry(pm, fs, pm.files[k]).Err?
    requires forall i :: 0 <= i < k ==> ReadEntry(pm, fs, pm.files[i]).Ok?
    ensures ProcessMetricData(pm, fs, parseTs) == Err(ReadEntry(pm, fs, pm.files[k]).error)
  {
    var read := EntryReader(pm, fs);
    ReadAllFirstError(read, pm.files, k);
    ProcessFilesIsReadThenSum(read, WindowOf(pm), parseTs, pm.files, map[]);
  }

  /** A successful run's summary does not depend on the order of the entries or of the
      records inside them, only on which records were read. */
  lemma RecordOrderIrrelevant(pm1: ProcessMetric, pm2: ProcessMetric, fs: string -> FileView, parseTs: string -> Option<int>)
    requires pm2 == pm1.(files := pm2.files)
    requires ProcessMetricData(pm1, fs, parseTs).Ok? && ProcessMetricData(pm2, fs, parseTs).Ok?
    requires multiset(ReadAllEntries(EntryReader(pm1, fs), pm1.files).value)
          == multiset(ReadAllEntries(EntryReader(pm2, fs), pm2.files).value)
    ensures ProcessMetricData(pm1, fs, parseTs) == ProcessMetricData(pm2, fs, parseTs)
  {
    var a := ReadAllEntries(EntryReader(pm1, fs), pm1.files).value;
    var b := ReadAllEntries(EntryReader(pm2, fs), pm2.files).value;
    ProcessFilesIsReadThenSum(EntryReader(pm1, fs), WindowOf(pm1), parseTs, pm1.files, map[]);
    ProcessFilesIsReadThenSum(EntryReader(pm2, fs), WindowOf(pm2), parseTs, pm2.files, map[]);
    SummaryIsOrderIndependent(a, b, WindowOf(pm1), parseTs);
  }

  /** The read loop does not skip directories the way validation does: a sub-directory
      named without a '.' passes validation, then opens and fails the extension check of
      the declared type, so the run ends with errUnexpectedFileType. */
  lemma DirectoryEntryAbortsRun(pm: ProcessMetric, fs: string -> FileView, parseTs: string -> Option<int>, dirName: string)
    requires pm.fileType == JsonType || pm.fileType == CsvType
    requires |pm.files| > 0 && pm.files[0] == DirEntry(dirName, true)
    requires dirName != "" && '/' !in dirName && '.' !in dirName
    requires AllFilesAllowed(pm.files[1..], ValidExtensionFile)
    requires fs(JoinPath(pm.directory, dirName)).openError.None?
    ensures AllFilesAllowed(pm.files, ValidExtensionFile)
    ensures ProcessMetricData(pm, fs, parseTs) == Err(UnexpectedFileType)
  {
    assert pm.files == [pm.files[0]] + pm.files[1..];
    DirectoriesIgnored(pm.files[1..], [pm.files[0]], ValidExtensionFile);
    ExtOfJoin(pm.directory, dirName);
    NoDotNoExtension(dirName);
    LowerOfLowerCase("");
    assert ReadEntry(pm, fs, pm.files[0]) == Err(UnexpectedFileType);
    FirstReadErrorAborts(pm, fs, parseTs, 0);
  }
}
