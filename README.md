# ocsp-crawl: the certificate auditor and the stream aggregator, in Dafny

`ocsp-crawl.go` walks a cached Certificate Transparency log. A goroutine handles each log
entry: it keeps the unexpired certificates issued by "Let's Encrypt Authority X1", queries
each one's OCSP responder with a POST, and sends one `data` record per completed POST on a
channel. `processData` reads the channel to the end. It prints per-record warnings and
keeps running figures: the latest `notBefore`, a latency sum, a latency slice and a set of
distinct serials. Then it sorts the slice and prints the count, the distinct count, the
time since the latest issue, and the median, mean, 90th percentile and maximum latency in
milliseconds.

This project models those two pieces:

- `times.dfy` (module `Times`): Go's `time.Time` as integer nanoseconds since the zero time,
  so the zero value is 0. `Sub` saturates to the int64 range of a `time.Duration`.
  `TruncDiv` is Go's integer division, which truncates toward zero.
- `serial.dfy` (module `Serial`): the `%032x` serial key, with the round trip that makes it
  injective.
- `auditor.dfy` (module `Auditor`): the callback at lines 110-185 as a pure classifier,
  `Classify`. A log entry is abstracted to the facts the callback observes: whether it
  reads and parses, the issuer CN, `NotAfter`, the extra certificates, the OCSP servers.
  A `Probe` holds what the outside world answered for that entry: `now`, whether request
  creation, the POST, the body read and the response parse succeeded, the latency, and the
  response times. `Audit` is the record stream of a whole run in log order.
- `sorting.dfy` (module `Sorting`): `int64slice` and `sort.Sort`. `SortInPlace` sorts an
  `array<int>` in place with `Swap`, and is proved against the functional `Sort`.
- `aggregator.dfy` (module `Aggregator`): `processData` as the method `ProcessData`, a loop
  over the finite record sequence the channel delivers, then `Finish`, which copies the
  slice into an array, sorts it in place and reads the figures. Both are proved equal to
  the specification functions `Lines` and `Summarize`, and the lemmas state what those
  figures mean.
- `crawl.dfy` (module `Crawl`): the producer feeding the consumer, with the cross-module
  facts.

Facts about the code that the model keeps as they are:

- The latency slice starts with 10000 zeros (`make(int64slice, 10000)` at line 201). An
  empty stream prints count 10000 and zero latencies (`EmptyRun`). Every printed count is
  10000 + n (`SummaryCounts`). For fewer than 10000 non-negative latencies the zeros put
  the median at 0 ms (`PrefillSkew`). Latencies of 100, 200 and 9000 ms print count 10003
  and median 0 ms (`ThreeRecords`).
- A failed `http.Post` sends no record; it only prints a diagnostic (lines 148-152). The
  `err != nil` check at line 165 can never fire (`FailedRecordsHaveZeroTimes` proves that
  no record carries `FetchError`).
- The "Merge Delay Intermediate 1" exemption at line 135 can never suppress the "No OCSP
  Server" diagnostic, because line 119 already requires the issuer to be "Let's Encrypt
  Authority X1" (`NoOcspServerAlwaysReported`). A merge-delay certificate is dropped
  silently at the issuer guard (`MergeDelaySkippedSilently`, `MergeDelayRunIsSilent`).
- An entry must pass eight guards before a record is sent. An unparsable first extra
  certificate, a missing OCSP server, a failed request creation and a failed POST each end
  with their own diagnostic and no record (`Classify`).
- The slow-response warning is printed to standard output (line 162).

## Model

| member | source | states |
|---|---|---|
| Times.Sub | ocsp-crawl.go:216 | `t.Sub(u)` is `t - u` clamped to the int64 range of a Duration |
| Times.SubExceeds | ocsp-crawl.go:216 | saturation never changes whether an elapsed time exceeds a representable limit such as four days |
| Times.TruncDiv | ocsp-crawl.go:226 | Duration division truncates toward zero: the quotient's multiple brackets the dividend from below for non-negative and from above for negative dividends |
| Times.TruncDivMonotone | ocsp-crawl.go:231-233 | dividing by a positive divisor keeps order, so the printed milliseconds keep the order of the nanosecond figures |
| Times.TruncDivBetween | ocsp-crawl.go:226 | if n·lo ≤ a ≤ n·hi then lo ≤ a / n ≤ hi |
| Times.Millis | ocsp-crawl.go:231-233 | `d / time.Millisecond` for a non-negative d is the number of whole milliseconds in d |
| Serial.Hex | ocsp-crawl.go:155 | the base-16 digits of a number are lower-case hex digits with no leading zero; a number below 16 is one digit |
| Serial.FormatSerial | ocsp-crawl.go:155 | `%032x` yields lower-case hex digits that read back as the serial number: exactly 32 of them, or more with no leading zero |
| Serial.ParseHexOfHex | ocsp-crawl.go:155 | reading back the hex digits of n gives n |
| Serial.ParseHexLeadingZeros | ocsp-crawl.go:155 | the zero padding does not change the value read back |
| Serial.FormatSerialInjective | ocsp-crawl.go:155 | two serial keys are equal exactly when the serial numbers are equal |
| Auditor.Classify | ocsp-crawl.go:110-184 | an entry is dropped silently iff it is unreadable, unparsable, from another issuer or expired. It sends a record iff every guard passes, in order. A sent record carries the formatted serial, notBefore, names, latency and URL. Its error is ReadError iff the body read fails and ParseError iff only the parse fails. Both update times come from the response on success and stay the zero time otherwise. The slow warning fires iff latency > 1 s. Each diagnostic comes from exactly its own guard once every earlier guard passed: IssuerParseFailed from an unparsable first extra certificate, NoOcspServer with the issuer name from an empty server list, RequestFailed from a failed request creation, and FetchFailed from a failed POST, carrying the server URL followed by the base64 request |
| Auditor.NoOcspServerAlwaysReported | ocsp-crawl.go:134-138 | an eligible-issuer certificate without an OCSP server always yields the "No OCSP Server" diagnostic and no record |
| Auditor.MergeDelaySkippedSilently | ocsp-crawl.go:119-121 | a certificate issued by the merge-delay intermediate is dropped silently at the issuer guard |
| Auditor.AuditCount | ocsp-crawl.go:110-185 | a run sends exactly one record per eligible entry |
| Auditor.AuditConcat | ocsp-crawl.go:110-185 | records come out in log order: the records of two stretches of the log are the first stretch's followed by the second's |
| Auditor.FailedRecordsHaveZeroTimes | ocsp-crawl.go:154-184 | every sent record whose query failed has zero thisUpdate and nextUpdate, and none carries the dead FetchError |
| Auditor.MergeDelayRunIsSilent | ocsp-crawl.go:119-138 | a run over merge-delay certificates produces no record and no diagnostic |
| Sorting.Insert | ocsp-crawl.go:223 | inserting into an ascending sequence keeps it ascending and adds exactly that element |
| Sorting.Sort | ocsp-crawl.go:223 | the sorted arrangement is ascending and a permutation of its input |
| Sorting.SortedUnique | ocsp-crawl.go:223 | two ascending sequences with the same elements are equal, so any correct sort yields Sort |
| Sorting.SortedBounds | ocsp-crawl.go:225-228 | every element of an ascending sequence lies between its first and last elements |
| Sorting.Swap | ocsp-crawl.go:194 | exchanges two elements, leaves the rest, and keeps the multiset |
| Sorting.SortInPlace | ocsp-crawl.go:191-195 | after sort.Sort the array is ascending and a permutation of what it held |
| Aggregator.RecordWarnings | ocsp-crawl.go:204-218 | the verbose line appears iff -v; the error line iff the record has an error; "badly out of date" iff begin is strictly after nextUpdate; "out of date" iff begin − thisUpdate > 4×24 h strictly |
| Aggregator.ReportRecord | ocsp-crawl.go:204-218 | the lines printed for one record are RecordLines, in the source's order |
| Aggregator.Step | ocsp-crawl.go:203-221 | one more record moves latestIssue, totalLatency, the slice, the serial set and the output exactly as the loop body does |
| Aggregator.ProcessData | ocsp-crawl.go:197-234 | the printed lines are Lines(records) and the summary is Summarize(records, begin) |
| Aggregator.Finish | ocsp-crawl.go:223-233 | sorting the slice in place and reading indices len/2, len·9/10, len−1 and total/len gives SummaryOf the sorted slice |
| Aggregator.LatestIssueIsMaximum | ocsp-crawl.go:199-209 | latestIssue is at least the zero time and every record's notBefore, and is the zero time or some record's notBefore. It stays at zero iff no notBefore is after zero |
| Aggregator.LatenciesInOrder | ocsp-crawl.go:201-219 | the slice is 10000 zeros followed by every record's latency in arrival order, failed queries included |
| Aggregator.TotalLatencyIsSum | ocsp-crawl.go:220 | totalLatency is the sum of the record latencies and of the whole slice |
| Aggregator.SumConcat | ocsp-crawl.go:220 | the sum of two stretches is the sum of their sums |
| Aggregator.SerialsAreRecordSerials | ocsp-crawl.go:221 | the distinct set holds exactly the records' serials |
| Aggregator.DistinctAtMostCount | ocsp-crawl.go:229 | the distinct count never exceeds the number of records |
| Aggregator.DistinctIffNoRepeat | ocsp-crawl.go:229 | the distinct count equals the number of records iff no serial repeats |
| Aggregator.SummaryCounts | ocsp-crawl.go:229-230 | the printed count is 10000 + n, the distinct count is at most n, and the time since latest issue is begin.Sub(latestIssue) |
| Aggregator.SummaryOrdered | ocsp-crawl.go:223-233 | median ≤ 90th ≤ max, in nanoseconds and in printed ms. The max is in the slice and bounds every element, and the mean lies between the smallest and largest elements |
| Aggregator.MaxIsLargestLatency | ocsp-crawl.go:228 | the maximum is non-negative, bounds every record latency, and is 0 or some record's latency |
| Aggregator.MeanBetween | ocsp-crawl.go:226 | totalLatency / len lies between the smallest and largest sorted element |
| Aggregator.SumBetween | ocsp-crawl.go:220 | a sum of n elements within [lo, hi] lies within [n·lo, n·hi] |
| Aggregator.PrefillSkew | ocsp-crawl.go:201-227 | with non-negative latencies the first 10000 sorted elements are 0, so the median is 0 for n < 10000 and the 90th percentile is 0 for n ≤ 1111 |
| Aggregator.SamplesHoldPrefill | ocsp-crawl.go:201 | when no latency is negative, the slice holds at least 10000 zeros and nothing negative |
| Aggregator.LeadingZeros | ocsp-crawl.go:225 | in an ascending non-negative sequence with more than k zeros, position k is 0 |
| Aggregator.EmptyRun | ocsp-crawl.go:197-234 | with no records the summary is count 10000, distinct 0, latency figures 0, and the time since latest issue measured from the zero time |
| Aggregator.FreshSerial | ocsp-crawl.go:221 | a record with a new serial grows the distinct set by one and keeps the no-repeat status of the earlier records |
| Aggregator.RepeatedSerial | ocsp-crawl.go:221 | a record with a seen serial leaves the distinct set unchanged and is a repeat |
| Crawl.Run | ocsp-crawl.go:107-188 | the producer prints the diagnostics and slow-response warnings of the entries; processData prints the lines and the summary of the auditor's records, whose count is 10000 plus the number of eligible entries, with at most that many distinct serials |
| Crawl.Produce | ocsp-crawl.go:109-187 | the goroutine sends the auditor's records in entry order, one per eligible entry, and prints each entry's diagnostic and each slow record's warning in the same order |
| Crawl.SlowRecordsAreSlow | ocsp-crawl.go:161-163 | a record draws the slow-response warning exactly when its latency exceeds one second |
| Crawl.FailedQueriesLookStale | ocsp-crawl.go:213-218 | a record whose query failed carries zero times, so once begin is past four days it draws the error line and both staleness warnings |
| Crawl.ThreeRecords | ocsp-crawl.go:219-233 | records of 100, 200 and 9000 ms, two sharing a serial, print count 10003, distinct 2, max 9000 ms and median 0 ms |
| Crawl.ThreeRecordsMax | ocsp-crawl.go:228 | in that scenario the maximum is 9000 ms |
| Crawl.ThreeSerials | ocsp-crawl.go:221 | three records have the serial set of their three serials |

## Left out

- Flag parsing (lines 25-29, 45-49) and the `statuses` map (lines 42, 50-53). The map is written but never read.
- CT log setup, `GetSignedTreeHead`, `DownloadRange`, `HashTree`, the hash comparison and the file open and seeks (lines 55-105). These are network and file I/O and calls into a library whose code is not part of this model.
- X.509 parsing, OCSP request encoding and response parsing, `http.Post`, `ioutil.ReadAll` and the body close. Their success or failure and the values they yield are fields of `Entry` and `Probe`.
- The base64 encoding of the request (line 146). The encoded request is an opaque string in `Probe`, and the URL is the first OCSP server followed by it.
- `entriesFile.Map` (line 110) is library code that is not part of this model. That it calls the callback one entry at a time, in file order, is assumed. So is what `ocsp.CreateRequest` does with the nil issuer it receives when an entry has no extra certificate (lines 126, 141): `Probe.requestOk` may take either value.
- The goroutine and the unbuffered channel (lines 107-109, 186-188). The channel is the finite sequence of records in send order; blocking and scheduling are not modelled.
- `time.Now()`. The per-entry clock reading is `Probe.now`, the latency is `Probe.latency`, and `begin` is a parameter.
- The text and formatting of every printed line. The model records which line kind is printed and the values it carries. The unpadded `%x` serial and the URL in the slow-response line are not modelled; only whether it is printed.
- Aggregator.ProcessData: `totalLatency` is an unbounded integer. Go's int64 addition would wrap only after 2^63 ns (about 292 years) of accumulated latency.
- Times are unbounded integers. Only `Sub` saturates, as Go's does; Go's `time.Time` range limits are not modelled.
- Serial numbers are natural numbers. The `%032x` form of a negative `big.Int` serial is not modelled.
- Sorting.SortInPlace: Go's `sort.Sort` uses a different algorithm (pattern-defeating quicksort). Only its result is modelled, which for integers is unique: the ascending permutation.
