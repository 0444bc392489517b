/** The CSV branch of `readMetricsFromFile`, starting from records already split into
    fields: the field-count rule of Go's csv.Reader, then the row loop that drops the
    header, rejects rows without exactly three fields and skips rows whose value is not
    an integer. */
module CsvRows {
  import opened Base
  import opened Text
  import opened Records

  /** What one three-field data row contributes: a metric, or nothing when its trimmed
      third field is not a decimal integer. */
  function RowMetric(row: seq<string>): (r: Option<Metric>)
    ensures r.Some? <==> |row| == 3 && Atoi(TrimSpace(row[2])).Some?
    ensures r.Some? ==> r.value.timestamp == row[0] && r.value.levelName == row[1]
                        && Some(r.value.value) == Atoi(TrimSpace(row[2]))
  {
    if |row| != 3 then None
    else
      match Atoi(TrimSpace(row[2]))
      case Some(v) => Some(Metric(row[0], row[1], v))
      case None => None
  }

  predicate AllThreeFields(rows: seq<seq<string>>)
  {
    forall i :: 0 <= i < |rows| ==> |rows[i]| == 3
  }

  /** The loop over the data rows (every record after the header), in order, with the
      conversion of one three-field row left as a parameter. The first row that does not
      have three fields aborts the loop with that row; nothing is salvaged. */
  function ParseRowsWith(rows: seq<seq<string>>, convert: seq<string> -> Option<Metric>): (r: Outcome<seq<Metric>>)
    ensures r.Ok? <==> AllThreeFields(rows)
    ensures r.Ok? ==> |r.value| <= |rows|
  {
    if rows == [] then Ok([])
    else if |rows[0]| != 3 then Err(InvalidCsvRecord(rows[0]))
    else
      var rest :- ParseRowsWith(rows[1..], convert);
      match convert(rows[0])
      case Some(m) => Ok([m] + rest)
      case None => Ok(rest)
  }

  /** The data-row loop of `readMetricsFromFile`: every data row must have three fields,
      and it yields at most one metric per row. */
  function ParseDataRows(rows: seq<seq<string>>): (r: Outcome<seq<Metric>>)
    ensures r.Ok? <==> AllThreeFields(rows)
    ensures r.Ok? ==> |r.value| <= |rows|
  {
    ParseRowsWith(rows, RowMetric)
  }

  /** The error the loop reports names the first data row without three fields. */
  lemma FirstMalformedRowReported(rows: seq<seq<string>>)
    requires !AllThreeFields(rows)
    ensures exists i :: 0 <= i < |rows| && |rows[i]| != 3 && AllThreeFields(rows[..i])
                        && ParseDataRows(rows) == Err(InvalidCsvRecord(rows[i]))
  {
    FirstMalformedRowWith(rows, RowMetric);
  }

  lemma {:induction false} FirstMalformedRowWith(rows: seq<seq<string>>, convert: seq<string> -> Option<Metric>)
    requires !AllThreeFields(rows)
    ensures exists i :: 0 <= i < |rows| && |rows[i]| != 3 && AllThreeFields(rows[..i])
                        && ParseRowsWith(rows, convert) == Err(InvalidCsvRecord(rows[i]))
  {
    if |rows[0]| != 3 {
      assert AllThreeFields(rows[..0]);
    } else {
      var tail := rows[1..];
      assert !AllThreeFields(tail) by {
        var j :| 0 <= j < |rows| && |rows[j]| != 3;
        assert tail[j - 1] == rows[j];
      }
      FirstMalformedRowWith(tail, convert);
      var i :| 0 <= i < |tail| && |tail[i]| != 3 && AllThreeFields(tail[..i])
               && ParseRowsWith(tail, convert) == Err(InvalidCsvRecord(tail[i]));
      assert rows[..i + 1] == [rows[0]] + tail[..i];
      assert rows[i + 1] == tail[i];
      assert ParseRowsWith(rows, convert) == Err(InvalidCsvRecord(rows[i + 1]));
    }
  }

  /** The row loop over all records: the first record is a header and is dropped,
      whatever it holds. */
  function ParseCsvRecords(records: seq<seq<string>>): (r: Outcome<seq<Metric>>)
    ensures records == [] ==> r == Ok([])
    ensures r.Ok? <==> forall i :: 1 <= i < |records| ==> |records[i]| == 3
    ensures r.Ok? && records != [] ==> |r.value| <= |records| - 1
  {
    if records == [] then Ok([])
    else
      var r := ParseDataRows(records[1..]);
      assert forall i :: 1 <= i < |records| ==> records[i] == records[1..][i - 1];
      r
  }

  /** Go's csv.Reader with `FieldsPerRecord` left at 0: the first record fixes the field
      count, and ReadAll fails at the first later record with a different count. */
  function ReaderFieldCount(records: seq<seq<string>>): (r: Outcome<seq<seq<string>>>)
    ensures r.Ok? ==> r.value == records
    ensures r.Ok? <==> forall i :: 0 <= i < |records| ==> |records[i]| == |records[0]|
    ensures r.Err? ==> exists i :: 0 <= i < |records| && |records[i]| != |records[0]|
                                   && (forall j :: 0 < j < i ==> |records[j]| == |records[0]|)
                                   && r.error == CsvFieldCount(records[i])
  {
    if records == [] then Ok(records) else CheckFieldCounts(records, 1)
  }

  function CheckFieldCounts(records: seq<seq<string>>, k: nat): (r: Outcome<seq<seq<string>>>)
    requires 0 < k <= |records|
    requires forall i :: 0 <= i < k ==> |records[i]| == |records[0]|
    ensures r.Ok? ==> r.value == records
    ensures r.Ok? <==> forall i :: 0 <= i < |records| ==> |records[i]| == |records[0]|
    ensures r.Err? ==> exists i :: k <= i < |records| && |records[i]| != |records[0]|
                                   && (forall j :: 0 < j < i ==> |records[j]| == |records[0]|)
                                   && r.error == CsvFieldCount(records[i])
    decreases |records| - k
  {
    if k == |records| then Ok(records)
    else if |records[k]| != |records[0]| then Err(CsvFieldCount(records[k]))
    else CheckFieldCounts(records, k + 1)
  }

  /** The whole CSV path from split records: the reader's field-count rule, then the
      row loop. */
  function ReadCsvRecords(records: seq<seq<string>>): (r: Outcome<seq<Metric>>)
    ensures r.Ok? <==> (forall i :: 0 <= i < |records| ==> |records[i]| == |records[0]|)
                       && (|records| <= 1 || |records[0]| == 3)
    ensures r.Ok? && records != [] ==> |r.value| <= |records| - 1
    ensures ReaderFieldCount(records).Err? ==> r == Err(ReaderFieldCount(records).error)
    ensures ReaderFieldCount(records).Ok? && r.Err? ==> r.error == InvalidCsvRecord(records[1])
  {
    var checked :- ReaderFieldCount(records);
    assert |checked| > 1 ==> checked[1..][0] == checked[1];
    ParseCsvRecords(checked)
  }

  // ---------------------------------------------------------------------------
  // Properties of the row loop
  // ---------------------------------------------------------------------------

  /** The header row is discarded whatever it contains. */
  lemma HeaderIgnored(h1: seq<string>, h2: seq<string>, rows: seq<seq<string>>)
    ensures ParseCsvRecords([h1] + rows) == ParseCsvRecords([h2] + rows)
  {
    assert ([h1] + rows)[1..] == rows == ([h2] + rows)[1..];
  }

  /** A malformed data row anywhere fails the read, even after valid rows, and the error
      names the first malformed row. */
  lemma MalformedRowFails(records: seq<seq<string>>, j: nat)
    requires 1 <= j < |records| && |records[j]| != 3
    ensures ParseCsvRecords(records).Err?
    ensures exists i :: 1 <= i <= j && |records[i]| != 3
                        && (forall k :: 1 <= k < i ==> |records[k]| == 3)
                        && ParseCsvRecords(records) == Err(InvalidCsvRecord(records[i]))
  {
    var rows := records[1..];
    assert rows[j - 1] == records[j];
    FirstMalformedRowReported(rows);
    var i :| 0 <= i < |rows| && |rows[i]| != 3 && AllThreeFields(rows[..i])
             && ParseDataRows(rows) == Err(InvalidCsvRecord(rows[i]));
    assert records[i + 1] == rows[i];
    assert forall k :: 1 <= k < i + 1 ==> records[k] == rows[..i][k - 1];
  }

  /** The loop over `a + b` is the loop over `a` followed by the loop over `b`: output
      order follows input order and each row contributes on its own. */
  lemma ParseDataRowsAppend(a: seq<seq<string>>, b: seq<seq<string>>)
    ensures ParseDataRows(a).Err? ==> ParseDataRows(a + b) == ParseDataRows(a)
    ensures ParseDataRows(a).Ok? && ParseDataRows(b).Err? ==> ParseDataRows(a + b) == ParseDataRows(b)
    ensures ParseDataRows(a).Ok? && ParseDataRows(b).Ok? ==>
      ParseDataRows(a + b) == Ok(ParseDataRows(a).value + ParseDataRows(b).value)
  {
    if ParseDataRows(a).Err? {
      AppendErrLeftWith(a, b, RowMetric);
    } else if ParseDataRows(b).Err? {
      AppendErrRightWith(a, b, RowMetric);
    } else {
      AppendOkWith(a, b, RowMetric);
    }
  }

  /** An error in `a` is the error of `a + b`. */
  lemma {:induction false} AppendErrLeftWith(a: seq<seq<string>>, b: seq<seq<string>>, convert: seq<string> -> Option<Metric>)
    requires ParseRowsWith(a, convert).Err?
    ensures ParseRowsWith(a + b, convert) == ParseRowsWith(a, convert)
  {
    var ab := a + b;
    assert ab[0] == a[0];
    if |a[0]| == 3 {
      assert ab[1..] == a[1..] + b;
      AppendErrLeftWith(a[1..], b, convert);
    }
  }

  /** When `a` is clean, an error in `b` is the error of `a + b`. */
  lemma {:induction false} AppendErrRightWith(a: seq<seq<string>>, b: seq<seq<string>>, convert: seq<string> -> Option<Metric>)
    requires ParseRowsWith(a, convert).Ok? && ParseRowsWith(b, convert).Err?
    ensures ParseRowsWith(a + b, convert) == ParseRowsWith(b, convert)
  {
    if a == [] {
      assert a + b == b;
    } else {
      var ab := a + b;
      assert ab[0] == a[0];
      assert ab[1..] == a[1..] + b;
      AppendErrRightWith(a[1..], b, convert);
    }
  }

  /** What one converted row adds in front of the metrics of the rows after it. */
  function Prepend(o: Option<Metric>, rest: seq<Metric>): seq<Metric>
  {
    match o
    case Some(m) => [m] + rest
    case None => rest
  }

  lemma PrependAssociates(o: Option<Metric>, x: seq<Metric>, y: seq<Metric>)
    ensures Prepend(o, x + y) == Prepend(o, x) + y
  {
    if o.Some? {
      assert [o.value] + (x + y) == ([o.value] + x) + y;
    }
  }

  /** One step of the loop on a clean tail. */
  lemma UnfoldRows(rows: seq<seq<string>>, convert: seq<string> -> Option<Metric>)
    requires rows != [] && |rows[0]| == 3 && ParseRowsWith(rows[1..], convert).Ok?
    ensures ParseRowsWith(rows, convert) == Ok(Prepend(convert(rows[0]), ParseRowsWith(rows[1..], convert).value))
  {
  }

  /** When both parts are clean, the output of `a + b` is the two outputs in order. */
  lemma {:induction false} AppendOkWith(a: seq<seq<string>>, b: seq<seq<string>>, convert: seq<string> -> Option<Metric>)
    requires ParseRowsWith(a, convert).Ok? && ParseRowsWith(b, convert).Ok?
    ensures ParseRowsWith(a + b, convert) == Ok(ParseRowsWith(a, convert).value + ParseRowsWith(b, convert).value)
  {
    var rb := ParseRowsWith(b, convert).value;
    if a == [] {
      assert a + b == b;
      assert [] + rb == rb;
    } else {
      var ab := a + b;
      assert ab[0] == a[0] && ab[1..] == a[1..] + b;
      AppendOkWith(a[1..], b, convert);
      var tailA := ParseRowsWith(a[1..], convert).value;
      UnfoldRows(a, convert);
      UnfoldRows(ab, convert);
      PrependAssociates(convert(a[0]), tailA, rb);
    }
  }

  /** A three-field row whose value parses yields exactly the metric (row[0], row[1], v). */
  lemma GoodRowYieldsMetric(row: seq<string>, v: int)
    requires |row| == 3 && Atoi(TrimSpace(row[2])) == Some(v)
    ensures ParseDataRows([row]) == Ok([Metric(row[0], row[1], v)])
  {
    assert [row][1..] == [];
    var m := Metric(row[0], row[1], v);
    assert RowMetric(row) == Some(m);
    assert [m] + [] == [m];
  }

  /** A three-field row whose trimmed value is not an integer is skipped without error and
      leaves the rest of the result unchanged. */
  lemma BadValueRowSkipped(pre: seq<seq<string>>, row: seq<string>, post: seq<seq<string>>)
    requires |row| == 3 && Atoi(TrimSpace(row[2])) == None
    ensures ParseDataRows(pre + [row] + post) == ParseDataRows(pre + post)
  {
    assert ParseDataRows([row]) == Ok([]);
    ParseDataRowsAppend(pre, [row]);
    ParseDataRowsAppend(pre + [row], post);
    ParseDataRowsAppend(pre, post);
    if ParseDataRows(pre).Ok? {
      assert ParseDataRows(pre).value + [] == ParseDataRows(pre).value;
    }
  }

  /** When every data row has three fields and every value parses, the output has one
      metric per data row, in the same order, carrying the row's first two fields. */
  lemma AllRowsKept(rows: seq<seq<string>>)
    requires AllThreeFields(rows)
    requires forall i :: 0 <= i < |rows| ==> Atoi(TrimSpace(rows[i][2])).Some?
    ensures ParseDataRows(rows).Ok?
    ensures |ParseDataRows(rows).value| == |rows|
    ensures forall i :: 0 <= i < |rows| ==>
      ParseDataRows(rows).value[i] == Metric(rows[i][0], rows[i][1], Atoi(TrimSpace(rows[i][2])).value)
  {
    assert forall i :: 0 <= i < |rows| ==>
      RowMetric(rows[i]) == Some(Metric(rows[i][0], rows[i][1], Atoi(TrimSpace(rows[i][2])).value));
    AllKeptWith(rows, RowMetric);
  }

  lemma {:induction false} AllKeptWith(rows: seq<seq<string>>, convert: seq<string> -> Option<Metric>)
    requires AllThreeFields(rows)
    requires forall i :: 0 <= i < |rows| ==> convert(rows[i]).Some?
    ensures ParseRowsWith(rows, convert).Ok?
    ensures |ParseRowsWith(rows, convert).value| == |rows|
    ensures forall i :: 0 <= i < |rows| ==> ParseRowsWith(rows, convert).value[i] == convert(rows[i]).value
  {
    if rows != [] {
      var tail := rows[1..];
      assert forall i :: 1 <= i < |rows| ==> rows[i] == tail[i - 1];
      AllKeptWith(tail, convert);
      UnfoldRows(rows, convert);
      assert ParseRowsWith(rows, convert).value == [convert(rows[0]).value] + ParseRowsWith(tail, convert).value;
    }
  }

  /** A metric written back as a data row: its timestamp, its level name and its value in
      decimal. */
  function MetricRow(m: Metric): (row: seq<string>)
    ensures |row| == 3 && row[0] == m.timestamp && row[1] == m.levelName
  {
    [m.timestamp, m.levelName, Itoa(m.value)]
  }

  function MetricRows(ms: seq<Metric>): (rows: seq<seq<string>>)
    ensures |rows| == |ms| && forall i :: 0 <= i < |ms| ==> rows[i] == MetricRow(ms[i])
  {
    seq(|ms|, i requires 0 <= i < |ms| => MetricRow(ms[i]))
  }

  predicate Int64Values(ms: seq<Metric>)
  {
    forall i :: 0 <= i < |ms| ==> Int64Min <= ms[i].value <= Int64Max
  }

  /** The row loop reads back exactly the metrics whose rows were written, as long as
      every value fits in an int64. */
  lemma RowsRoundTrip(ms: seq<Metric>)
    requires Int64Values(ms)
    ensures ParseDataRows(MetricRows(ms)) == Ok(ms)
  {
    var rows := MetricRows(ms);
    forall i | 0 <= i < |rows|
      ensures Atoi(TrimSpace(rows[i][2])) == Some(ms[i].value)
    {
      assert "" + Itoa(ms[i].value) + "" == Itoa(ms[i].value);
      PaddedNumberParses("", ms[i].value, "");
    }
    AllRowsKept(rows);
    assert ParseDataRows(rows).value == ms;
  }

  /** After the reader's field-count rule has passed, the loop fails exactly when the
      header does not have three fields and some data row follows it. */
  lemma ReaderThenLoop(records: seq<seq<string>>)
    requires ReaderFieldCount(records).Ok?
    ensures ReadCsvRecords(records).Err? <==> |records| > 1 && |records[0]| != 3
  {
    if |records| > 1 && |records[0]| != 3 {
      assert |records[1]| != 3;
    }
  }
}
