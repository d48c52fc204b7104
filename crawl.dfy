/** The whole run after the log is up to date: the auditor's records, in log order, are what
    the aggregator reads off the channel before it is closed. */
module Crawl {
  import opened Times
  import opened Auditor
  import opened Aggregator

  /** The records, in send order, that were preceded by the slow-response warning. */
  function SlowRecords(ds: seq<Datum>): seq<Datum>
  {
    if ds == [] then []
    else
      SlowRecords(ds[..|ds| - 1]) + (if ds[|ds| - 1].latency > Second then [ds[|ds| - 1]] else [])
  }

  /** A record draws the slow-response warning exactly when its latency exceeds one second. */
  lemma {:induction false} SlowRecordsAreSlow(ds: seq<Datum>)
    ensures forall x :: x in SlowRecords(ds) <==> x in ds && x.latency > Second
  {
    if ds != [] {
      SlowRecordsAreSlow(ds[..|ds| - 1]);
      assert ds == ds[..|ds| - 1] + [ds[|ds| - 1]];
    }
  }

  /** The producer goroutine: `entriesFile.Map` hands the callback one entry at a time,
      which prints its diagnostic or its slow-response warning and sends its record. */
  method Produce(items: seq<Item>)
    returns (records: seq<Datum>, diagnostics: seq<Diagnostic>, slow: seq<Datum>)
    ensures records == Audit(items)
    ensures diagnostics == Diagnostics(items)
    ensures slow == SlowRecords(records)
    ensures |records| == CountEligible(items)
  {
    records, diagnostics, slow := [], [], [];
    for k := 0 to |items|
      invariant records == Audit(items[..k])
      invariant diagnostics == Diagnostics(items[..k])
      invariant slow == SlowRecords(records)
    {
      assert items[..k + 1][..k] == items[..k];
      match Classify(items[k].entry, items[k].probe)
      case Skipped =>
      case Diagnosed(d) =>
        diagnostics := diagnostics + [d];
      case Sent(datum, isSlow) =>
        if isSlow {
          slow := slow + [datum];
        }
        assert (records + [datum])[..|records|] == records;
        records := records + [datum];
    }
    assert items[..|items|] == items;
    AuditCount(items);
  }

  /** `main` from the channel on: the producer's records feed processData. */
  method Run(items: seq<Item>, begin: Time, verbose: bool)
    returns (diagnostics: seq<Diagnostic>, slow: seq<Datum>, lines: seq<Line>, summary: Summary)
    ensures diagnostics == Diagnostics(items)
    ensures slow == SlowRecords(Audit(items))
    ensures lines == Lines(Audit(items), begin, verbose)
    ensures summary == Summarize(Audit(items), begin)
    ensures summary.count == Prefill + CountEligible(items)
    ensures summary.distinct <= CountEligible(items)
  {
    var records;
    records, diagnostics, slow := Produce(items);
    SummaryCounts(records, begin);
    lines, summary := ProcessData(records, begin, verbose);
  }

  /** A query that failed after the POST leaves both update times at the zero time, so its
      record draws the error line and both staleness warnings once begin is more than
      four days past the zero time. */
  lemma FailedQueriesLookStale(items: seq<Item>, k: nat, begin: Time, verbose: bool)
    requires k < |Audit(items)| && Audit(items)[k].err.Some?
    requires begin > FourDays
    ensures var d := Audit(items)[k];
      && QueryError(d.err.value, d.names, d.url) in RecordLines(d, begin, verbose)
      && BadlyOutOfDate(d.serial, d.thisUpdate) in RecordLines(d, begin, verbose)
      && OutOfDate(d.serial, d.thisUpdate, d.url) in RecordLines(d, begin, verbose)
  {
    FailedRecordsHaveZeroTimes(items, k);
    RecordWarnings(Audit(items)[k], begin, verbose);
  }

  /** Three records with latencies 100 ms, 200 ms and 9000 ms, the first two for the same
      serial: the printed count is 10003, 2 serials are distinct, the maximum is
      9000 ms and the median is 0 ms because of the zeros in the slice. */
  lemma ThreeRecords(ds: seq<Datum>, begin: Time)
    requires |ds| == 3
    requires ds[0].serial == ds[1].serial != ds[2].serial
    requires ds[0].latency == 100 * Millisecond
    requires ds[1].latency == 200 * Millisecond
    requires ds[2].latency == 9000 * Millisecond
    ensures var s := Summarize(ds, begin);
      s.count == 10003 && s.distinct == 2 && Millis(s.max) == 9000 && Millis(s.median) == 0
  {
    SummaryCounts(ds, begin);
    ThreeSerials(ds);
    ThreeRecordsMax(ds, begin);
    PrefillSkew(ds, begin);
  }

  lemma ThreeRecordsMax(ds: seq<Datum>, begin: Time)
    requires |ds| == 3
    requires ds[0].latency == 100 * Millisecond
    requires ds[1].latency == 200 * Millisecond
    requires ds[2].latency == 9000 * Millisecond
    ensures Summarize(ds, begin).max == 9000 * Millisecond
  {
    MaxIsLargestLatency(ds, begin);
  }

  lemma ThreeSerials(ds: seq<Datum>)
    requires |ds| == 3
    ensures Serials(ds) == {ds[0].serial, ds[1].serial, ds[2].serial}
  {
    var p2, p1 := ds[..2], ds[..1];
    assert ds[..|ds| - 1] == p2 && p2[..|p2| - 1] == p1 && p1[..|p1| - 1] == [];
    assert Serials(p1) == {ds[0].serial};
    assert Serials(p2) == {ds[0].serial, ds[1].serial};
  }
}
