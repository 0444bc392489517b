/** The filter-and-sum loop of `ProcessMetricData`: a metric counts when its timestamp
    parses to an instant strictly inside the window, and counted values are summed per
    level name. Timestamp parsing (time.Parse with RFC 3339) is the parameter `parseTs`. */
module Aggregate {
  import opened Base
  import opened Records

  /** The open interval (start, end) of instants a metric must fall in. */
  datatype Window = Window(start: int, end: int)

  /** The metric's timestamp parses and lies strictly after `start` and strictly before `end`. */
  predicate InWindow(m: Metric, w: Window, parseTs: string -> Option<int>)
  {
    match parseTs(m.timestamp)
    case None => false
    case Some(t) => w.start < t && t < w.end
  }

  /** One step of the loop: `summary[levelName] += value` for an in-window metric,
      with Go's zero value for a level name not yet present. */
  function AddMetric(summary: map<string, int>, m: Metric, w: Window, parseTs: string -> Option<int>): (r: map<string, int>)
    ensures !InWindow(m, w, parseTs) ==> r == summary
    ensures InWindow(m, w, parseTs) ==> r.Keys == summary.Keys + {m.levelName}
    ensures InWindow(m, w, parseTs) && m.levelName !in summary ==> r[m.levelName] == m.value
    ensures InWindow(m, w, parseTs) && m.levelName in summary ==> r[m.levelName] == summary[m.levelName] + m.value
    ensures forall k :: k in summary && k != m.levelName ==> k in r && r[k] == summary[k]
  {
    if InWindow(m, w, parseTs) then
      summary[m.levelName := (if m.levelName in summary then summary[m.levelName] else 0) + m.value]
    else summary
  }

  /** The loop over one file's metrics, in order. */
  function Accumulate(summary: map<string, int>, metrics: seq<Metric>, w: Window, parseTs: string -> Option<int>): (r: map<string, int>)
    ensures summary.Keys <= r.Keys
    ensures forall k :: k in summary && (forall i :: 0 <= i < |metrics| ==> metrics[i].levelName != k) ==> r[k] == summary[k]
    decreases |metrics|
  {
    if metrics == [] then summary
    else
      assert forall i :: 0 <= i < |metrics| - 1 ==> metrics[1..][i] == metrics[i + 1];
      Accumulate(AddMetric(summary, metrics[0], w, parseTs), metrics[1..], w, parseTs)
  }

  // ---------------------------------------------------------------------------
  // Reference definitions: what the summary should hold, independent of order
  // ---------------------------------------------------------------------------

  /** The sum of the values of the in-window metrics whose level name is `key`. */
  function Total(metrics: seq<Metric>, key: string, w: Window, parseTs: string -> Option<int>): int
  {
    if metrics == [] then 0
    else
      (if InWindow(metrics[0], w, parseTs) && metrics[0].levelName == key then metrics[0].value else 0)
      + Total(metrics[1..], key, w, parseTs)
  }

  /** Some in-window metric has level name `key`. */
  predicate Observed(metrics: seq<Metric>, key: string, w: Window, parseTs: string -> Option<int>)
  {
    exists m :: m in metrics && InWindow(m, w, parseTs) && m.levelName == key
  }

  /** The summary a run should produce from `metrics`: one entry per observed level
      name, holding that name's total. */
  ghost predicate IsSummaryOf(summary: map<string, int>, metrics: seq<Metric>, w: Window, parseTs: string -> Option<int>)
  {
    && (forall key :: key in summary <==> Observed(metrics, key, w, parseTs))
    && (forall key :: key in summary ==> summary[key] == Total(metrics, key, w, parseTs))
  }

  /** The aggregation of a whole run, starting from Go's empty map. */
  function Summarize(metrics: seq<Metric>, w: Window, parseTs: string -> Option<int>): (summary: map<string, int>)
    ensures IsSummaryOf(summary, metrics, w, parseTs)
  {
    AccumulateMeetsTotals(map[], metrics, w, parseTs);
    Accumulate(map[], metrics, w, parseTs)
  }

  // ---------------------------------------------------------------------------
  // Lemmas
  // ---------------------------------------------------------------------------

  /** The loop adds each level name's in-window total to what the map already held, and
      adds exactly the observed level names as keys. */
  lemma {:induction false} AccumulateMeetsTotals(summary: map<string, int>, metrics: seq<Metric>, w: Window, parseTs: string -> Option<int>)
    ensures forall key :: key in Accumulate(summary, metrics, w, parseTs) <==>
      key in summary || Observed(metrics, key, w, parseTs)
    ensures forall key :: key in Accumulate(summary, metrics, w, parseTs) ==>
      Accumulate(summary, metrics, w, parseTs)[key] ==
        (if key in summary then summary[key] else 0) + Total(metrics, key, w, parseTs)
    decreases |metrics|
  {
    if metrics != [] {
      var m := metrics[0];
      var next := AddMetric(summary, m, w, parseTs);
      AccumulateMeetsTotals(next, metrics[1..], w, parseTs);
      forall key
        ensures Observed(metrics, key, w, parseTs) <==>
          (InWindow(m, w, parseTs) && m.levelName == key) || Observed(metrics[1..], key, w, parseTs)
      {
        if Observed(metrics, key, w, parseTs) {
          var x :| x in metrics && InWindow(x, w, parseTs) && x.levelName == key;
          if x != m {
            assert x in metrics[1..] by {
              var i :| 0 <= i < |metrics| && metrics[i] == x;
              assert metrics[1..][i - 1] == x;
            }
          }
        }
        if Observed(metrics[1..], key, w, parseTs) {
          var x :| x in metrics[1..] && InWindow(x, w, parseTs) && x.levelName == key;
          assert x in metrics;
        }
      }
    }
  }

  /** The reference definition pins the summary down: two maps that both meet it are equal. */
  lemma SummaryUnique(s1: map<string, int>, s2: map<string, int>, metrics: seq<Metric>, w: Window, parseTs: string -> Option<int>)
    requires IsSummaryOf(s1, metrics, w, parseTs) && IsSummaryOf(s2, metrics, w, parseTs)
    ensures s1 == s2
  {
    assert s1.Keys == s2.Keys;
  }

  /** The total over a concatenation is the sum of the totals. */
  lemma {:induction false} TotalAppend(a: seq<Metric>, b: seq<Metric>, key: string, w: Window, parseTs: string -> Option<int>)
    ensures Total(a + b, key, w, parseTs) == Total(a, key, w, parseTs) + Total(b, key, w, parseTs)
  {
    if a == [] {
      assert a + b == b;
    } else {
      assert (a + b)[0] == a[0];
      assert (a + b)[1..] == a[1..] + b;
      TotalAppend(a[1..], b, key, w, parseTs);
    }
  }

  /** A level name's total depends only on which metrics there are, not on their order. */
  lemma {:induction false} TotalPermutation(a: seq<Metric>, b: seq<Metric>, key: string, w: Window, parseTs: string -> Option<int>)
    requires multiset(a) == multiset(b)
    ensures Total(a, key, w, parseTs) == Total(b, key, w, parseTs)
    decreases |a|
  {
    if a != [] {
      var x := a[0];
      assert x in multiset(b);
      var j :| 0 <= j < |b| && b[j] == x;
      var rest := b[..j] + b[j + 1..];
      assert b == b[..j] + [x] + b[j + 1..];
      assert a == [x] + a[1..];
      calc {
        multiset(a[1..]);
        multiset(a) - multiset{x};
        multiset(b) - multiset{x};
        multiset(b[..j]) + multiset{x} + multiset(b[j + 1..]) - multiset{x};
        multiset(rest);
      }
      TotalPermutation(a[1..], rest, key, w, parseTs);
      TotalAppend(b[..j] + [x], b[j + 1..], key, w, parseTs);
      TotalAppend(b[..j], [x], key, w, parseTs);
      TotalAppend(b[..j], b[j + 1..], key, w, parseTs);
      TotalAppend([x], a[1..], key, w, parseTs);
    }
  }

  /** The summary does not depend on the order in which metrics arrive. */
  lemma SummaryIsOrderIndependent(a: seq<Metric>, b: seq<Metric>, w: Window, parseTs: string -> Option<int>)
    requires multiset(a) == multiset(b)
    ensures Summarize(a, w, parseTs) == Summarize(b, w, parseTs)
  {
    var sa := Summarize(a, w, parseTs);
    var sb := Summarize(b, w, parseTs);
    forall key
      ensures Observed(a, key, w, parseTs) <==> Observed(b, key, w, parseTs)
    {
      if Observed(a, key, w, parseTs) {
        var x :| x in a && InWindow(x, w, parseTs) && x.levelName == key;
        assert x in multiset(b);
      }
      if Observed(b, key, w, parseTs) {
        var x :| x in b && InWindow(x, w, parseTs) && x.levelName == key;
        assert x in multiset(a);
      }
    }
    forall key | key in sa
      ensures sa[key] == sb[key]
    {
      TotalPermutation(a, b, key, w, parseTs);
    }
    assert sa.Keys == sb.Keys;
  }

  /** Summing file by file is summing the concatenation of the files. */
  lemma {:induction false} AccumulateAppend(summary: map<string, int>, a: seq<Metric>, b: seq<Metric>, w: Window, parseTs: string -> Option<int>)
    ensures Accumulate(summary, a + b, w, parseTs) == Accumulate(Accumulate(summary, a, w, parseTs), b, w, parseTs)
    decreases |a|
  {
    if a == [] {
      assert a + b == b;
    } else {
      assert (a + b)[0] == a[0];
      assert (a + b)[1..] == a[1..] + b;
      AccumulateAppend(AddMetric(summary, a[0], w, parseTs), a[1..], b, w, parseTs);
    }
  }

  /** A metric on either bound of the window, or with an unparseable timestamp, leaves
      the summary unchanged; one strictly inside adds its value under its level name. */
  lemma WindowIsOpen(summary: map<string, int>, m: Metric, w: Window, parseTs: string -> Option<int>)
    ensures parseTs(m.timestamp) == None ==> AddMetric(summary, m, w, parseTs) == summary
    ensures parseTs(m.timestamp) == Some(w.start) ==> AddMetric(summary, m, w, parseTs) == summary
    ensures parseTs(m.timestamp) == Some(w.end) ==> AddMetric(summary, m, w, parseTs) == summary
    ensures (parseTs(m.timestamp).Some? && w.start < parseTs(m.timestamp).value < w.end) ==>
      var s := AddMetric(summary, m, w, parseTs);
      && m.levelName in s
      && s[m.levelName] == (if m.levelName in summary then summary[m.levelName] else 0) + m.value
      && forall k :: k in summary && k != m.levelName ==> k in s && s[k] == summary[k]
  {
  }
}
