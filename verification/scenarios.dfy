/** The two runs of cmd/data_test.go, a CSV directory summarised into summary/out.json
    and the same directory declared as JSON, which the run rejects. The test reads the
    files under ../metrics/csv/, which are not part of this model; here the directory is a
    constructed one-file listing whose rows reproduce the totals the test expects. */
module Scenarios {
  import opened Base
  import opened Text
  import opened Records
  import opened FileType
  import opened CsvRows
  import opened ReadMetrics
  import opened Aggregate
  import opened Output
  import opened Pipeline

  const Header: seq<string> := ["timestamp", "level_name", "value"]

  /** The metrics of the constructed file: six inside the window and one after it, chosen
      so that their sums are the totals the positive test expects. */
  const Expected: seq<Metric> := [
    Metric("2022-03-01T10:00:00Z", "lobby_screen", 500),
    Metric("2022-03-02T10:00:00Z", "lobby_screen", 5),
    Metric("2022-04-01T10:00:00Z", "main_menu", 80),
    Metric("2022-05-01T10:00:00Z", "options", 60),
    Metric("2022-06-01T10:00:00Z", "help", 50),
    Metric("2022-07-01T10:00:00Z", "level1", 520),
    Metric("2022-12-31T10:00:00Z", "level1", 7)
  ]

  /** A data row whose value is not a number; the loop skips it. */
  const BadRow: seq<string> := ["2022-08-01T10:00:00Z", "help", "n/a"]

  /** The data rows of the file: one row per expected metric, then the bad row. */
  const Rows: seq<seq<string>> := MetricRows(Expected) + [BadRow]

  const Directory := "metrics/csv"

  const FileName := "metrics.csv"

  const Listing: seq<DirEntry> := [DirEntry(FileName, false)]

  /** The path the run opens: "metrics/csv/metrics.csv". */
  const FilePath := JoinPath(Directory, FileName)

  function Config(fileType: string): ProcessMetric
  {
    ProcessMetric(Listing, Directory, fileType, JsonType, "", 100, 200)
  }

  /** The timestamps of the rows parse; all but the seventh fall inside (100, 200). */
  predicate ClockFits(parseTs: string -> Option<int>)
  {
    && (forall i :: 0 <= i < 6 ==> parseTs(Expected[i].timestamp).Some?
                                   && 100 < parseTs(Expected[i].timestamp).value < 200)
    && parseTs(Expected[6].timestamp).Some? && parseTs(Expected[6].timestamp).value >= 200
  }

  lemma NotANumber()
    ensures Atoi(TrimSpace("n/a")) == None
  {
    assert TrimSpace("n/a") == "n/a" by {
      TrimSpacePadded("", "n/a", "");
      assert "" + "n/a" + "" == "n/a";
    }
    AtoiRejects("n/a", 0);
  }

  lemma ScenarioRowsParse()
    ensures ParseDataRows(Rows) == Ok(Expected)
  {
    var good := MetricRows(Expected);
    assert ParseDataRows(good) == Ok(Expected) by {
      assert Int64Values(Expected);
      RowsRoundTrip(Expected);
    }
    assert ParseDataRows(good + [BadRow] + []) == ParseDataRows(good + []) by {
      NotANumber();
      BadValueRowSkipped(good, BadRow, []);
    }
    assert good + [BadRow] + [] == Rows;
    assert good + [] == good;
  }

  lemma CsvExtension()
    ensures Ext(FileName) == ".csv" && Ext(FilePath) == ".csv"
  {
    assert IsExtension(".csv", FileName);
    ExtensionUnique(Ext(FileName), ".csv", FileName);
    ExtOfJoin(Directory, FileName);
  }

  lemma CsvFileRecognised()
    ensures Ext(FilePath) == ".csv" && IsCsvFile(FilePath) && !IsJsonFile(FilePath)
    ensures AllFilesAllowed(Listing, ValidExtensionFile)
  {
    CsvExtension();
    LowerOfLowerCase(".csv");
    assert IsCsvFile(FileName) && IsCsvFile(FilePath);
    AllowedIsJsonOrCsv(FileName);
  }

  /** The records of the file, header first, pass the reader's field-count rule and
      the row loop. */
  lemma ScenarioRecords()
    ensures ReadCsvRecords([Header] + Rows) == Ok(Expected)
  {
    var records := [Header] + Rows;
    ScenarioRowsParse();
    assert records[1..] == Rows;
    assert ReaderFieldCount(records) == Ok(records) by {
      assert forall i :: 1 <= i < |records| ==> records[i] == Rows[i - 1];
    }
  }

  lemma ScenarioRead(fs: string -> FileView)
    requires fs(FilePath) == FileView(None, Err(DecodeError("not JSON")), Ok([Header] + Rows))
    ensures ReadEntry(Config(CsvType), fs, Listing[0]) == Ok(Expected)
    ensures ReadAllEntries(EntryReader(Config(CsvType), fs), Listing) == Ok(Expected)
  {
    ScenarioRecords();
    CsvFileRecognised();
    assert ReadEntry(Config(CsvType), fs, Listing[0]) == Ok(Expected);
    assert Listing[1..] == [];
    assert Expected + [] == Expected;
  }

  /** The first six metrics fall in the window (100, 200), the seventh after it. */
  lemma ScenarioWindow(parseTs: string -> Option<int>)
    requires ClockFits(parseTs)
    ensures forall i :: 0 <= i < 6 ==> InWindow(Expected[i], Window(100, 200), parseTs)
    ensures !InWindow(Expected[6], Window(100, 200), parseTs)
  {
  }

  /** One step of the fold: the first metric takes the map to next, the rest to total. */
  lemma FoldStep(s: map<string, int>, metrics: seq<Metric>, parseTs: string -> Option<int>,
                 next: map<string, int>, total: map<string, int>)
    requires metrics != []
    requires AddMetric(s, metrics[0], Window(100, 200), parseTs) == next
    requires Accumulate(next, metrics[1..], Window(100, 200), parseTs) == total
    ensures Accumulate(s, metrics, Window(100, 200), parseTs) == total
  {
  }

  /** The metrics from the fourth on, folded one step at a time onto the first three's totals. */
  lemma ScenarioFoldLate(parseTs: string -> Option<int>)
    requires forall i :: 3 <= i < 6 ==> InWindow(Expected[i], Window(100, 200), parseTs)
    requires !InWindow(Expected[6], Window(100, 200), parseTs)
    ensures var s3 := map["lobby_screen" := 505, "main_menu" := 80];
      Accumulate(s3, Expected[3..], Window(100, 200), parseTs) == s3["options" := 60]["help" := 50]["level1" := 520]
  {
    var w := Window(100, 200);
    var e := Expected;
    var s3 := map["lobby_screen" := 505, "main_menu" := 80];
    var s4 := s3["options" := 60];
    var s5 := s4["help" := 50];
    var s6 := s5["level1" := 520];
    assert Accumulate(s6, e[6..], w, parseTs) == s6 by {
      assert e[6..][1..] == [];
      FoldStep(s6, e[6..], parseTs, s6, s6);
    }
    assert Accumulate(s5, e[5..], w, parseTs) == s6 by {
      assert e[5..][1..] == e[6..];
      assert AddMetric(s5, e[5], w, parseTs) == s6 by { assert InWindow(e[5], w, parseTs); }
      FoldStep(s5, e[5..], parseTs, s6, s6);
    }
    assert Accumulate(s4, e[4..], w, parseTs) == s6 by {
      assert e[4..][1..] == e[5..];
      assert AddMetric(s4, e[4], w, parseTs) == s5 by { assert InWindow(e[4], w, parseTs); }
      FoldStep(s4, e[4..], parseTs, s5, s6);
    }
    assert Accumulate(s3, e[3..], w, parseTs) == s6 by {
      assert e[3..][1..] == e[4..];
      assert AddMetric(s3, e[3], w, parseTs) == s4 by { assert InWindow(e[3], w, parseTs); }
      FoldStep(s3, e[3..], parseTs, s4, s6);
    }
  }

  /** Folding the scenario's metrics from the empty map, one step at a time. */
  lemma ScenarioFold(parseTs: string -> Option<int>)
    requires forall i :: 0 <= i < 6 ==> InWindow(Expected[i], Window(100, 200), parseTs)
    requires !InWindow(Expected[6], Window(100, 200), parseTs)
    ensures Accumulate(map[], Expected, Window(100, 200), parseTs) ==
      map["lobby_screen" := 505, "main_menu" := 80, "options" := 60, "help" := 50, "level1" := 520]
  {
    var w := Window(100, 200);
    var e := Expected;
    var s1 := map["lobby_screen" := 500];
    var s6 := map["lobby_screen" := 505, "main_menu" := 80, "options" := 60, "help" := 50, "level1" := 520];
    ScenarioFoldEarly(parseTs);
    assert AddMetric(map[], e[0], w, parseTs) == s1 by { assert InWindow(e[0], w, parseTs); }
    FoldStep(map[], e, parseTs, s1, s6);
  }

  /** The second and third metrics, folded onto the totals of the later ones. */
  lemma ScenarioFoldEarly(parseTs: string -> Option<int>)
    requires forall i :: 1 <= i < 6 ==> InWindow(Expected[i], Window(100, 200), parseTs)
    requires !InWindow(Expected[6], Window(100, 200), parseTs)
    ensures Accumulate(map["lobby_screen" := 500], Expected[1..], Window(100, 200), parseTs) ==
      map["lobby_screen" := 505, "main_menu" := 80, "options" := 60, "help" := 50, "level1" := 520]
  {
    var w := Window(100, 200);
    var e := Expected;
    var s1 := map["lobby_screen" := 500];
    var s2 := map["lobby_screen" := 505];
    var s3 := s2["main_menu" := 80];
    var s6 := s3["options" := 60]["help" := 50]["level1" := 520];
    ScenarioFoldLate(parseTs);
    assert Accumulate(s2, e[2..], w, parseTs) == s6 by {
      assert e[2..][1..] == e[3..];
      assert AddMetric(s2, e[2], w, parseTs) == s3 by { assert InWindow(e[2], w, parseTs); }
      FoldStep(s2, e[2..], parseTs, s3, s6);
    }
    assert e[1..][1..] == e[2..];
    assert AddMetric(s1, e[1], w, parseTs) == s2 by { assert InWindow(e[1], w, parseTs); }
    FoldStep(s1, e[1..], parseTs, s2, s6);
  }

  /** The summary of the constructed metrics is the five totals the positive test expects. */
  lemma ScenarioSummary(parseTs: string -> Option<int>, s: map<string, int>)
    requires ClockFits(parseTs)
    requires IsSummaryOf(s, Expected, Window(100, 200), parseTs)
    ensures s == map["lobby_screen" := 505, "main_menu" := 80, "options" := 60, "help" := 50, "level1" := 520]
  {
    ScenarioWindow(parseTs);
    ScenarioFold(parseTs);
    SummaryUnique(s, Summarize(Expected, Window(100, 200), parseTs), Expected, Window(100, 200), parseTs);
  }

  /** The positive test's run on the constructed listing: the summary holds exactly the
      five totals the test expects and is written to summary/out.json as JSON. */
  lemma CsvDirectorySummary(fs: string -> FileView, parseTs: string -> Option<int>)
    requires ClockFits(parseTs)
    requires fs(FilePath) == FileView(None, Err(DecodeError("not JSON")), Ok([Header] + Rows))
    ensures ProcessMetricData(Config(CsvType), fs, parseTs) ==
      Ok(Emission(map["lobby_screen" := 505, "main_menu" := 80, "options" := 60, "help" := 50, "level1" := 520],
                  Json, "summary/out.json"))
  {
    var pm := Config(CsvType);
    var r := ProcessMetricData(pm, fs, parseTs);
    assert r.Ok? && IsSummaryOf(r.value.summary, Expected, WindowOf(pm), parseTs) by {
      ScenarioRead(fs);
      CsvFileRecognised();
    }
    ScenarioSummary(parseTs, r.value.summary);
    assert r.value.path == "summary/out.json" by {
      DefaultOutputPaths(JsonType);
    }
  }

  /** The negative test's run on the constructed listing: the CSV directory declared as
      JSON passes validation, since ".csv" is an allowed extension, and then fails the JSON
      extension check. */
  lemma CsvDirectoryDeclaredJson(fs: string -> FileView, parseTs: string -> Option<int>)
    requires fs(FilePath).openError.None?
    ensures ProcessMetricData(Config(JsonType), fs, parseTs) == Err(UnexpectedFileType)
  {
    var pm := Config(JsonType);
    CsvFileRecognised();
    assert ReadEntry(pm, fs, Listing[0]) == Err(UnexpectedFileType);
    FirstReadErrorAborts(pm, fs, parseTs, 0);
  }
}
