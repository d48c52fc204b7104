/** The stream aggregator, `processData`: reads every record from the channel in arrival
    order, prints per-record warnings, keeps running statistics over a latency slice that
    starts out holding 10000 zeros, then sorts the slice and prints a summary. */
module Aggregator {
  import opened Times
  import opened Auditor
  import opened Sorting

  /** `make(int64slice, 10000)`: the slice starts with this many zero latencies. */
  const Prefill: nat := 10000

  /** Per-record output, in the order it is printed for one record. */
  datatype Line =
    | Verbose(notBefore: Time, serial: string, names: seq<string>)  // standard output, -v only
    | QueryError(err: OcspError, names: seq<string>, url: string)
    | BadlyOutOfDate(serial: string, thisUpdate: Time)
    | OutOfDate(serial: string, thisUpdate: Time, url: string)

  /** The figures printed once the channel is closed. Latencies are nanosecond counts;
      the printed milliseconds are their Millis. */
  datatype Summary = Summary(
    count: nat,
    distinct: nat,
    sinceLatest: Duration,
    median: Duration,
    mean: Duration,
    ninetieth: Duration,
    max: Duration)

  /** The warnings one record triggers, against the single `begin` read at the start. */
  function RecordLines(d: Datum, begin: Time, verbose: bool): seq<Line>
  {
    VerboseLines(d, verbose) + ErrorLines(d) + StalenessLines(d, begin)
  }

  function VerboseLines(d: Datum, verbose: bool): seq<Line>
  {
    if verbose then [Verbose(d.notBefore, d.serial, d.names)] else []
  }

  function ErrorLines(d: Datum): seq<Line>
  {
    if d.err.Some? then [QueryError(d.err.value, d.names, d.url)] else []
  }

  function StalenessLines(d: Datum, begin: Time): seq<Line>
  {
    (if After(begin, d.nextUpdate) then [BadlyOutOfDate(d.serial, d.thisUpdate)] else [])
    + (if Sub(begin, d.thisUpdate) > FourDays then [OutOfDate(d.serial, d.thisUpdate, d.url)] else [])
  }

  /** Which warnings a record triggers: an error line exactly when its query failed, the
      "badly out of date" warning exactly when begin is strictly after nextUpdate, and the
      "out of date" warning exactly when begin is more than four days after thisUpdate. */
  lemma RecordWarnings(d: Datum, begin: Time, verbose: bool)
    ensures Verbose(d.notBefore, d.serial, d.names) in RecordLines(d, begin, verbose) <==> verbose
    ensures (exists e :: QueryError(e, d.names, d.url) in RecordLines(d, begin, verbose))
            <==> d.err.Some?
    ensures BadlyOutOfDate(d.serial, d.thisUpdate) in RecordLines(d, begin, verbose)
            <==> begin > d.nextUpdate
    ensures OutOfDate(d.serial, d.thisUpdate, d.url) in RecordLines(d, begin, verbose)
            <==> begin - d.thisUpdate > FourDays
  {
    SubExceeds(begin, d.thisUpdate, FourDays);
    var r := RecordLines(d, begin, verbose);
    assert d.err.Some? ==> QueryError(d.err.value, d.names, d.url) in r;
  }

  /** All per-record output of a run, in arrival order. */
  function Lines(ds: seq<Datum>, begin: Time, verbose: bool): seq<Line>
  {
    if ds == [] then []
    else Lines(ds[..|ds| - 1], begin, verbose) + RecordLines(ds[|ds| - 1], begin, verbose)
  }

  /** The latencies of the records, in arrival order. */
  function Latencies(ds: seq<Datum>): (r: seq<Duration>)
    ensures |r| == |ds|
  {
    if ds == [] then [] else Latencies(ds[..|ds| - 1]) + [ds[|ds| - 1].latency]
  }

  function ZeroLatencies(k: nat): (r: seq<Duration>)
    ensures |r| == k && forall i :: 0 <= i < k ==> r[i] == 0
  {
    seq(k, _ => 0)
  }

  /** The latency slice after the records: 10000 zeros, then one entry per record. */
  function Samples(ds: seq<Datum>): (r: seq<Duration>)
    ensures |r| == Prefill + |ds|
  {
    ZeroLatencies(Prefill) + Latencies(ds)
  }

  function Sum(s: seq<int>): int
  {
    if s == [] then 0 else Sum(s[..|s| - 1]) + s[|s| - 1]
  }

  /** totalLatency: the running sum of the record latencies. */
  function TotalLatency(ds: seq<Datum>): Duration
  {
    if ds == [] then 0 else TotalLatency(ds[..|ds| - 1]) + ds[|ds| - 1].latency
  }

  /** The keys of the `distinct` map. */
  function Serials(ds: seq<Datum>): set<string>
  {
    if ds == [] then {} else Serials(ds[..|ds| - 1]) + {ds[|ds| - 1].serial}
  }

  /** latestIssue: starts at the zero time and moves to a record's notBefore whenever that
      is strictly later. */
  function LatestIssue(ds: seq<Datum>): Time
  {
    if ds == [] then ZeroTime
    else
      var prev := LatestIssue(ds[..|ds| - 1]);
      if After(ds[|ds| - 1].notBefore, prev) then ds[|ds| - 1].notBefore else prev
  }

  /** The summary the records determine: the statistics are read from the sorted samples
      at indices len/2, len*9/10 and len-1, and the mean divides by the full length. */
  function Summarize(ds: seq<Datum>, begin: Time): Summary
  {
    SummaryOf(Sort(Samples(ds)), TotalLatency(ds), |Serials(ds)|, LatestIssue(ds), begin)
  }

  /** The figures read from an ascending latency slice and the running totals. */
  function SummaryOf(sorted: seq<Duration>, total: Duration, distinct: nat, latest: Time,
                     begin: Time): Summary
    requires |sorted| > 0
  {
    var n := |sorted|;
    Summary(n, distinct, Sub(begin, latest),
            sorted[n / 2], TruncDiv(total, n), sorted[n * 9 / 10], sorted[n - 1])
  }

  /** The lines printed while one record is taken off the channel. */
  method ReportRecord(datum: Datum, begin: Time, verbose: bool) returns (out: seq<Line>)
    ensures out == RecordLines(datum, begin, verbose)
  {
    out := [];
    if verbose {
      out := out + [Verbose(datum.notBefore, datum.serial, datum.names)];
    }
    if datum.err.Some? {
      out := out + [QueryError(datum.err.value, datum.names, datum.url)];
    }
    assert out == VerboseLines(datum, verbose) + ErrorLines(datum);
    ghost var before := out;
    if After(begin, datum.nextUpdate) {
      out := out + [BadlyOutOfDate(datum.serial, datum.thisUpdate)];
    }
    if Sub(begin, datum.thisUpdate) > FourDays {
      out := out + [OutOfDate(datum.serial, datum.thisUpdate, datum.url)];
    }
    assert out == before + StalenessLines(datum, begin);
  }

  /** latestIssue is the latest notBefore of the records, and stays at the zero time
      exactly when no record's notBefore is after it. */
  lemma {:induction false} LatestIssueIsMaximum(ds: seq<Datum>)
    ensures LatestIssue(ds) >= ZeroTime
    ensures forall i :: 0 <= i < |ds| ==> ds[i].notBefore <= LatestIssue(ds)
    ensures LatestIssue(ds) == ZeroTime || exists i :: 0 <= i < |ds| && ds[i].notBefore == LatestIssue(ds)
    ensures LatestIssue(ds) == ZeroTime <==> forall i :: 0 <= i < |ds| ==> ds[i].notBefore <= ZeroTime
  {
    if ds != [] {
      var prefix := ds[..|ds| - 1];
      LatestIssueIsMaximum(prefix);
      assert forall i :: 0 <= i < |prefix| ==> ds[i] == prefix[i];
      if LatestIssue(ds) != LatestIssue(prefix) {
        assert ds[|ds| - 1].notBefore == LatestIssue(ds);
      }
    }
  }

  /** The latency slice holds the records' latencies in arrival order, failed queries
      included, after the 10000 zeros. */
  lemma {:induction false} LatenciesInOrder(ds: seq<Datum>)
    ensures forall i :: 0 <= i < |ds| ==> Latencies(ds)[i] == ds[i].latency
    ensures forall i :: 0 <= i < |ds| ==> Samples(ds)[Prefill + i] == ds[i].latency
    ensures forall k :: 0 <= k < Prefill ==> Samples(ds)[k] == 0
  {
    if ds != [] {
      LatenciesInOrder(ds[..|ds| - 1]);
    }
  }

  /** totalLatency is the sum of the whole slice: the zeros add nothing to it. */
  lemma {:induction false} TotalLatencyIsSum(ds: seq<Datum>)
    ensures TotalLatency(ds) == Sum(Latencies(ds)) == Sum(Samples(ds))
  {
    if ds != [] {
      TotalLatencyIsSum(ds[..|ds| - 1]);
      var ls := Latencies(ds);
      assert ls[..|ls| - 1] == Latencies(ds[..|ds| - 1]);
    }
    SumConcat(ZeroLatencies(Prefill), Latencies(ds));
    SumZeroLatencies(Prefill);
  }

  lemma {:induction false} SumConcat(s: seq<int>, t: seq<int>)
    ensures Sum(s + t) == Sum(s) + Sum(t)
  {
    if t == [] {
      assert s + t == s;
    } else {
      assert (s + t)[..|s + t| - 1] == s + t[..|t| - 1];
      SumConcat(s, t[..|t| - 1]);
    }
  }

  lemma {:induction false} SumZeroLatencies(k: nat)
    ensures Sum(ZeroLatencies(k)) == 0
  {
    if k > 0 {
      assert ZeroLatencies(k)[..k - 1] == ZeroLatencies(k - 1);
      SumZeroLatencies(k - 1);
    }
  }

  /** The keys of `distinct` are exactly the records' serials. */
  lemma {:induction false} SerialsAreRecordSerials(ds: seq<Datum>)
    ensures forall x :: x in Serials(ds) <==> exists i :: 0 <= i < |ds| && ds[i].serial == x
  {
    if ds != [] {
      var prefix := ds[..|ds| - 1];
      SerialsAreRecordSerials(prefix);
      forall x | x in Serials(ds) ensures exists i :: 0 <= i < |ds| && ds[i].serial == x {
        if x in Serials(prefix) {
          var i :| 0 <= i < |prefix| && prefix[i].serial == x;
          assert ds[i].serial == x;
        } else {
          assert ds[|ds| - 1].serial == x;
        }
      }
      forall x | exists i :: 0 <= i < |ds| && ds[i].serial == x ensures x in Serials(ds) {
        var i :| 0 <= i < |ds| && ds[i].serial == x;
        if i < |prefix| {
          assert prefix[i].serial == x;
        }
      }
    }
  }

  /** There are never more distinct serials than records. */
  lemma {:induction false} DistinctAtMostCount(ds: seq<Datum>)
    ensures |Serials(ds)| <= |ds|
  {
    if ds != [] {
      DistinctAtMostCount(ds[..|ds| - 1]);
    }
  }

  /** No two records share a serial. */
  predicate NoRepeat(ds: seq<Datum>) {
    forall i, j :: 0 <= i < j < |ds| ==> ds[i].serial != ds[j].serial
  }

  /** The distinct count equals the record count exactly when no serial repeats. */
  lemma {:induction false} DistinctIffNoRepeat(ds: seq<Datum>)
    ensures |Serials(ds)| == |ds| <==> NoRepeat(ds)
  {
    if ds != [] {
      var prefix := ds[..|ds| - 1];
      DistinctIffNoRepeat(prefix);
      DistinctAtMostCount(prefix);
      if ds[|ds| - 1].serial in Serials(prefix) {
        RepeatedSerial(ds);
      } else {
        FreshSerial(ds);
      }
    }
  }

  lemma RepeatedSerial(ds: seq<Datum>)
    requires ds != [] && ds[|ds| - 1].serial in Serials(ds[..|ds| - 1])
    ensures Serials(ds) == Serials(ds[..|ds| - 1]) && !NoRepeat(ds)
  {
    var prefix := ds[..|ds| - 1];
    SerialsAreRecordSerials(prefix);
    var i :| 0 <= i < |prefix| && prefix[i].serial == ds[|ds| - 1].serial;
    assert ds[i].serial == ds[|ds| - 1].serial;
  }

  lemma FreshSerial(ds: seq<Datum>)
    requires ds != [] && ds[|ds| - 1].serial !in Serials(ds[..|ds| - 1])
    ensures |Serials(ds)| == |Serials(ds[..|ds| - 1])| + 1
    ensures NoRepeat(ds) <==> NoRepeat(ds[..|ds| - 1])
  {
    var prefix, last := ds[..|ds| - 1], ds[|ds| - 1];
    assert Serials(ds) == Serials(prefix) + {last.serial};
    forall i | 0 <= i < |prefix| ensures prefix[i].serial != last.serial {
      SerialIn(prefix, i);
    }
    NoRepeatSnoc(prefix, last);
    assert prefix + [last] == ds;
  }

  lemma {:induction false} SerialIn(ds: seq<Datum>, i: nat)
    requires i < |ds|
    ensures ds[i].serial in Serials(ds)
  {
    if i < |ds| - 1 {
      SerialIn(ds[..|ds| - 1], i);
    }
  }

  /** Appending a record whose serial is new keeps a repeat-free run repeat-free. */
  lemma NoRepeatSnoc(prefix: seq<Datum>, last: Datum)
    requires forall i :: 0 <= i < |prefix| ==> prefix[i].serial != last.serial
    ensures NoRepeat(prefix + [last]) <==> NoRepeat(prefix)
  {
    var ds := prefix + [last];
    if NoRepeat(prefix) {
      forall i, j | 0 <= i < j < |ds| ensures ds[i].serial != ds[j].serial {
        if j < |prefix| {
          assert ds[i] == prefix[i] && ds[j] == prefix[j];
        } else {
          assert ds[i] == prefix[i];
        }
      }
    }
    if NoRepeat(ds) {
      forall i, j | 0 <= i < j < |prefix| ensures prefix[i].serial != prefix[j].serial {
        assert ds[i] == prefix[i] && ds[j] == prefix[j];
      }
    }
  }

  /** The printed counts: the slice length 10000 + n, and at most n distinct serials. */
  lemma SummaryCounts(ds: seq<Datum>, begin: Time)
    ensures Summarize(ds, begin).count == Prefill + |ds|
    ensures Summarize(ds, begin).distinct <= |ds|
    ensures Summarize(ds, begin).sinceLatest == Sub(begin, LatestIssue(ds))
  {
    DistinctAtMostCount(ds);
  }

  /** The slice is never empty, every index read is in range, and the figures are ordered:
      median <= 90th percentile <= maximum, in nanoseconds and in printed milliseconds. The
      maximum is an element of the slice and no element exceeds it; the mean lies between
      the smallest and the largest element. */
  lemma SummaryOrdered(ds: seq<Datum>, begin: Time)
    ensures var s := Summarize(ds, begin);
      && s.median <= s.ninetieth <= s.max
      && Millis(s.median) <= Millis(s.ninetieth) <= Millis(s.max)
      && s.max in multiset(Samples(ds))
      && (forall x :: x in multiset(Samples(ds)) ==> x <= s.max)
      && Sort(Samples(ds))[0] <= s.mean <= s.max
  {
    var sorted := Sort(Samples(ds));
    var n := |sorted|;
    var s := Summarize(ds, begin);
    assert n / 2 <= n * 9 / 10 <= n - 1;
    TruncDivMonotone(s.median, s.ninetieth, Millisecond);
    TruncDivMonotone(s.ninetieth, s.max, Millisecond);
    assert sorted[n - 1] in multiset(sorted);
    forall x | x in multiset(Samples(ds)) ensures x <= s.max {
      SortedBounds(sorted, x);
    }
    MeanBetween(ds, sorted);
  }

  /** The printed maximum is the largest record latency, or 0 when no latency is above the
      zeros of the slice. */
  lemma MaxIsLargestLatency(ds: seq<Datum>, begin: Time)
    ensures var m := Summarize(ds, begin).max;
      && m >= 0
      && (forall i :: 0 <= i < |ds| ==> ds[i].latency <= m)
      && (m == 0 || exists i :: 0 <= i < |ds| && ds[i].latency == m)
  {
    var m := Summarize(ds, begin).max;
    var samples := Samples(ds);
    SummaryOrdered(ds, begin);
    LatenciesInOrder(ds);
    assert samples[0] in multiset(samples);
    forall i | 0 <= i < |ds| ensures ds[i].latency <= m {
      assert samples[Prefill + i] in multiset(samples);
    }
    assert m in samples;
    var k :| 0 <= k < |samples| && samples[k] == m;
    if k >= Prefill {
      assert ds[k - Prefill].latency == m;
    }
  }

  lemma MeanBetween(ds: seq<Datum>, sorted: seq<Duration>)
    requires sorted == Sort(Samples(ds))
    ensures sorted[0] <= TruncDiv(TotalLatency(ds), |sorted|) <= sorted[|sorted| - 1]
  {
    var samples := Samples(ds);
    var lo, hi := sorted[0], sorted[|sorted| - 1];
    forall k | 0 <= k < |samples| ensures lo <= samples[k] <= hi {
      assert samples[k] in multiset(samples);
      SortedBounds(sorted, samples[k]);
    }
    SumBetween(samples, lo, hi);
    TotalLatencyIsSum(ds);
    TruncDivBetween(Sum(samples), |samples|, lo, hi);
  }

  /** A sum of n elements, each within [lo, hi], lies within [n * lo, n * hi]. */
  lemma {:induction false} SumBetween(s: seq<int>, lo: int, hi: int)
    requires forall k :: 0 <= k < |s| ==> lo <= s[k] <= hi
    ensures |s| * lo <= Sum(s) <= |s| * hi
  {
    if s != [] {
      SumBetween(s[..|s| - 1], lo, hi);
      assert |s| * lo == (|s| - 1) * lo + lo;
      assert |s| * hi == (|s| - 1) * hi + hi;
    }
  }

  /** With the zeros in the slice and no negative latency, the first 10000 sorted elements
      are zeros: fewer than 10000 records leave the printed median at 0, and fewer than
      1112 the 90th percentile too. */
  lemma PrefillSkew(ds: seq<Datum>, begin: Time)
    requires forall i :: 0 <= i < |ds| ==> ds[i].latency >= 0
    ensures forall k :: 0 <= k < Prefill ==> Sort(Samples(ds))[k] == 0
    ensures |ds| < Prefill ==> Summarize(ds, begin).median == 0
    ensures |ds| <= 1111 ==> Summarize(ds, begin).ninetieth == 0
  {
    var sorted := Sort(Samples(ds));
    SamplesHoldPrefill(ds);
    forall k | 0 <= k < Prefill ensures sorted[k] == 0 {
      LeadingZeros(sorted, k);
    }
  }

  /** The slice holds at least 10000 zeros and, when no latency is negative, nothing below 0. */
  lemma SamplesHoldPrefill(ds: seq<Datum>)
    requires forall i :: 0 <= i < |ds| ==> ds[i].latency >= 0
    ensures multiset(Samples(ds))[0] >= Prefill
    ensures forall x :: x in multiset(Samples(ds)) ==> x >= 0
  {
    var samples := Samples(ds);
    LatenciesInOrder(ds);
    assert samples == ZeroLatencies(Prefill) + Latencies(ds);
    ZeroLatenciesMultiplicity(Prefill);
    forall x | x in multiset(samples) ensures x >= 0 {
      assert x in samples;
    }
  }

  lemma {:induction false} ZeroLatenciesMultiplicity(k: nat)
    ensures multiset(ZeroLatencies(k))[0] == k
  {
    if k > 0 {
      assert ZeroLatencies(k) == ZeroLatencies(k - 1) + [0];
      ZeroLatenciesMultiplicity(k - 1);
    }
  }

  /** In an ascending sequence of non-negative numbers holding more than k zeros,
      position k holds a zero. */
  lemma LeadingZeros(sorted: seq<int>, k: nat)
    requires Sorted(sorted) && k < multiset(sorted)[0]
    requires forall x :: x in multiset(sorted) ==> x >= 0
    ensures k < |sorted| && sorted[k] == 0
  {
    var left, right := sorted[..k], sorted[k..];
    MultiplicityAtMost(left, 0);
    assert sorted == left + right;
    assert multiset(right)[0] > 0;
    var j :| 0 <= j < |right| && right[j] == 0;
    assert sorted[k] in multiset(sorted);
  }

  lemma {:induction false} MultiplicityAtMost(s: seq<int>, x: int)
    ensures multiset(s)[x] <= |s|
  {
    if s != [] {
      assert s == s[..|s| - 1] + [s[|s| - 1]];
      MultiplicityAtMost(s[..|s| - 1], x);
    }
  }

  /** With no records, processData still prints figures: the count is 10000, every
      latency figure is 0, and the time since the latest issue is measured from the zero
      time. */
  lemma EmptyRun(begin: Time)
    ensures Summarize([], begin) == Summary(Prefill, 0, Sub(begin, ZeroTime), 0, 0, 0, 0)
  {
    var zs := ZeroLatencies(Prefill);
    assert Samples([]) == zs;
    SortedUnique(Sort(zs), zs);
  }

  /** What taking one more record off the channel does to each running figure. */
  lemma Step(ds: seq<Datum>, d: Datum, begin: Time, verbose: bool)
    ensures LatestIssue(ds + [d]) == if After(d.notBefore, LatestIssue(ds)) then d.notBefore else LatestIssue(ds)
    ensures TotalLatency(ds + [d]) == TotalLatency(ds) + d.latency
    ensures Samples(ds + [d]) == Samples(ds) + [d.latency]
    ensures Serials(ds + [d]) == Serials(ds) + {d.serial}
    ensures Lines(ds + [d], begin, verbose) == Lines(ds, begin, verbose) + RecordLines(d, begin, verbose)
  {
    assert (ds + [d])[..|ds|] == ds;
  }

  /** processData over the records the channel delivers before it is closed. */
  method ProcessData(records: seq<Datum>, begin: Time, verbose: bool)
    returns (lines: seq<Line>, summary: Summary)
    ensures lines == Lines(records, begin, verbose)
    ensures summary == Summarize(records, begin)
  {
    var latestIssue := ZeroTime;
    var totalLatency: Duration := 0;
    var latencies := ZeroLatencies(Prefill);
    var distinct: set<string> := {};
    lines := [];
    for i := 0 to |records|
      invariant latestIssue == LatestIssue(records[..i])
      invariant totalLatency == TotalLatency(records[..i])
      invariant latencies == Samples(records[..i])
      invariant distinct == Serials(records[..i])
      invariant lines == Lines(records[..i], begin, verbose)
    {
      var datum := records[i];
      Step(records[..i], datum, begin, verbose);
      assert records[..i + 1] == records[..i] + [datum];
      var out := ReportRecord(datum, begin, verbose);
      if After(datum.notBefore, latestIssue) {
        latestIssue := datum.notBefore;
      }
      lines := lines + out;
      latencies := latencies + [datum.latency];
      totalLatency := totalLatency + datum.latency;
      distinct := distinct + {datum.serial};
    }
    assert records[..|records|] == records;
    summary := Finish(latencies, totalLatency, |distinct|, latestIssue, begin);
  }

  /** The summary printed after the channel is closed: sort the slice in place, then read
      the median, mean, 90th percentile and maximum from it. */
  method Finish(latencies: seq<Duration>, totalLatency: Duration, distinct: nat,
                latestIssue: Time, begin: Time) returns (summary: Summary)
    requires |latencies| >= Prefill
    ensures summary == SummaryOf(Sort(latencies), totalLatency, distinct, latestIssue, begin)
  {
    var a := new int[|latencies|](k requires 0 <= k < |latencies| => latencies[k]);
    assert a[..] == latencies;
    SortInPlace(a);
    SortedUnique(a[..], Sort(latencies));
    var n := a.Length;
    var median := a[n / 2];
    var mean := TruncDiv(totalLatency, n);
    var ninetieth := a[n * 9 / 10];
    var max := a[n - 1];
    summary := Summary(n, distinct, Sub(begin, latestIssue), median, mean, ninetieth, max);
  }
}
