/** The certificate auditor: the callback that walks the log entries file, decides for each
    entry whether it is audited, queries the certificate's OCSP responder and sends one
    record per completed POST on the data channel. X.509 parsing, OCSP encoding and HTTP
    are outside the model: their outcomes are the boolean and value fields of an Entry
    and of the Probe taken while the entry was handled. */
module Auditor {
  import opened Times
  import Serial

  /** The only issuer whose certificates are audited. */
  const TrustedIssuer: string := "Let's Encrypt Authority X1"
  /** The intermediate exempted from the "no OCSP server" diagnostic. */
  const MergeDelayIssuer: string := "Merge Delay Intermediate 1"

  /** The fields of a parsed leaf certificate that the auditor reads. */
  datatype Cert = Cert(
    issuerCN: string,
    notBefore: Time,
    notAfter: Time,
    serialNumber: nat,
    dnsNames: seq<string>,
    ocspServers: seq<string>)

  /** One log entry as the entries file yields it. */
  datatype Entry = Entry(
    readFailed: bool,        // the file reader reported an error for this entry
    cert: Option<Cert>,      // None when the leaf certificate does not parse
    extraCerts: seq<bool>)   // the chain that came with it; true where a certificate parses

  datatype Option<T> = None | Some(value: T)

  /** The validity window of a parsed OCSP response. */
  datatype Response = Response(thisUpdate: Time, nextUpdate: Time)

  /** What the outside world answered while one entry was handled. */
  datatype Probe = Probe(
    now: Time,                 // time.Now() at the expiry check
    requestOk: bool,           // ocsp.CreateRequest succeeded
    requestBase64: string,     // the request body, base64-encoded, for the diagnostic URL
    postOk: bool,              // http.Post returned without error
    latency: Duration,         // time from just before the POST to just after it
    bodyOk: bool,              // reading the response body succeeded
    response: Option<Response>) // None when ocsp.ParseResponse fails

  /** Why a sent record carries an error. FetchError belongs to a check that cannot fire. */
  datatype OcspError = FetchError | ReadError | ParseError

  /** One audit record, the `data` struct sent on the channel. */
  datatype Datum = Datum(
    serial: string,
    notBefore: Time,
    nextUpdate: Time,
    thisUpdate: Time,
    latency: Duration,
    err: Option<OcspError>,
    names: seq<string>,
    url: string)

  /** A line written to standard error instead of a record. */
  datatype Diagnostic =
    | IssuerParseFailed
    | NoOcspServer(issuerCN: string)
    | RequestFailed
    | FetchFailed(url: string)

  /** What handling one entry amounts to. `slow` is the slow-response warning printed
      before the record is sent. */
  datatype Outcome =
    | Skipped
    | Diagnosed(diagnostic: Diagnostic)
    | Sent(datum: Datum, slow: bool)

  /** An entry dropped without a word: unreadable, unparsable, foreign issuer or expired. */
  predicate SilentlySkipped(e: Entry, p: Probe) {
    e.readFailed || e.cert.None? || e.cert.value.issuerCN != TrustedIssuer
    || After(p.now, e.cert.value.notAfter)
  }

  /** Every guard before the record is built passes. */
  predicate Eligible(e: Entry, p: Probe) {
    && !e.readFailed
    && e.cert.Some?
    && e.cert.value.issuerCN == TrustedIssuer
    && !After(p.now, e.cert.value.notAfter)
    && (|e.extraCerts| > 0 ==> e.extraCerts[0])
    && |e.cert.value.ocspServers| > 0
    && p.requestOk
    && p.postOk
  }

  /** The four silent guards pass and the first extra certificate, if any, parses. */
  predicate IssuerChainOk(e: Entry, p: Probe) {
    !SilentlySkipped(e, p) && (|e.extraCerts| > 0 ==> e.extraCerts[0])
  }

  /** The diagnostic URL: the first OCSP server followed by the base64 request. */
  function RequestUrl(c: Cert, p: Probe): string
    requires |c.ocspServers| > 0
  {
    c.ocspServers[0] + p.requestBase64
  }

  /** The callback body, one early return per guard, in the order the source checks them. */
  function Classify(e: Entry, p: Probe): (o: Outcome)
    ensures o.Skipped? <==> SilentlySkipped(e, p)
    ensures o.Sent? <==> Eligible(e, p)
    ensures o == Diagnosed(IssuerParseFailed) <==>
      !SilentlySkipped(e, p) && |e.extraCerts| > 0 && !e.extraCerts[0]
    ensures o.Diagnosed? && o.diagnostic.NoOcspServer? <==>
      IssuerChainOk(e, p) && |e.cert.value.ocspServers| == 0
    ensures o.Diagnosed? && o.diagnostic.NoOcspServer? ==>
      o.diagnostic.issuerCN == e.cert.value.issuerCN
    ensures o == Diagnosed(RequestFailed) <==>
      IssuerChainOk(e, p) && |e.cert.value.ocspServers| > 0 && !p.requestOk
    ensures o.Diagnosed? && o.diagnostic.FetchFailed? <==>
      IssuerChainOk(e, p) && |e.cert.value.ocspServers| > 0 && p.requestOk && !p.postOk
    ensures o.Diagnosed? && o.diagnostic.FetchFailed? ==>
      o.diagnostic.url == RequestUrl(e.cert.value, p)
    ensures o.Sent? ==>
      var c := e.cert.value;
      && o.datum.serial == Serial.FormatSerial(c.serialNumber)
      && o.datum.notBefore == c.notBefore
      && o.datum.names == c.dnsNames
      && o.datum.latency == p.latency
      && o.datum.url == c.ocspServers[0] + p.requestBase64
      && (o.slow <==> o.datum.latency > Second)
      && (o.datum.err == None <==> p.bodyOk && p.response.Some?)
      && (o.datum.err == Some(ReadError) <==> !p.bodyOk)
      && (o.datum.err == Some(ParseError) <==> p.bodyOk && p.response.None?)
      && (o.datum.err == None ==>
            o.datum.thisUpdate == p.response.value.thisUpdate
            && o.datum.nextUpdate == p.response.value.nextUpdate)
      && (o.datum.err != None ==>
            o.datum.thisUpdate == ZeroTime && o.datum.nextUpdate == ZeroTime)
  {
    if e.readFailed then Skipped
    else if e.cert.None? then Skipped
    else
      var c := e.cert.value;
      if c.issuerCN != TrustedIssuer then Skipped
      else if After(p.now, c.notAfter) then Skipped
      else if |e.extraCerts| > 0 && !e.extraCerts[0] then Diagnosed(IssuerParseFailed)
      else if |c.ocspServers| == 0 then
        if c.issuerCN != MergeDelayIssuer then Diagnosed(NoOcspServer(c.issuerCN)) else Skipped
      else if !p.requestOk then Diagnosed(RequestFailed)
      else
        var url := RequestUrl(c, p);
        if !p.postOk then Diagnosed(FetchFailed(url))
        else
          var datum := Datum(Serial.FormatSerial(c.serialNumber), c.notBefore, ZeroTime, ZeroTime,
                             p.latency, None, c.dnsNames, url);
          var slow := datum.latency > Second;
          // The POST error was already handled above: this branch never runs.
          if !p.postOk then Sent(datum.(err := Some(FetchError)), slow)
          else if !p.bodyOk then Sent(datum.(err := Some(ReadError)), slow)
          else if p.response.None? then Sent(datum.(err := Some(ParseError)), slow)
          else Sent(datum.(nextUpdate := p.response.value.nextUpdate,
                           thisUpdate := p.response.value.thisUpdate), slow)
  }

  /** The leaf certificate's issuer guard comes first, so the merge-delay exemption can
      never apply: an audited issuer without an OCSP server is always reported. */
  lemma NoOcspServerAlwaysReported(e: Entry, p: Probe)
    requires !e.readFailed && e.cert.Some? && e.cert.value.issuerCN == TrustedIssuer
    requires !After(p.now, e.cert.value.notAfter)
    requires |e.extraCerts| > 0 ==> e.extraCerts[0]
    requires |e.cert.value.ocspServers| == 0
    ensures Classify(e, p) == Diagnosed(NoOcspServer(TrustedIssuer))
  {
  }

  /** A merge-delay certificate is dropped silently at the issuer guard, whatever else holds. */
  lemma MergeDelaySkippedSilently(e: Entry, p: Probe)
    requires e.cert.Some? && e.cert.value.issuerCN == MergeDelayIssuer
    ensures Classify(e, p) == Skipped
  {
  }

  /** One log entry together with what was observed while handling it. */
  datatype Item = Item(entry: Entry, probe: Probe)

  /** The records sent on the channel for a run over the entries, in log order. */
  function Audit(items: seq<Item>): seq<Datum>
  {
    if items == [] then []
    else
      var o := Classify(items[|items| - 1].entry, items[|items| - 1].probe);
      Audit(items[..|items| - 1]) + (if o.Sent? then [o.datum] else [])
  }

  /** The side-channel diagnostics for a run over the entries, in log order. */
  function Diagnostics(items: seq<Item>): seq<Diagnostic>
  {
    if items == [] then []
    else
      var o := Classify(items[|items| - 1].entry, items[|items| - 1].probe);
      Diagnostics(items[..|items| - 1]) + (if o.Diagnosed? then [o.diagnostic] else [])
  }

  /** The number of entries that pass every guard. */
  function CountEligible(items: seq<Item>): nat
  {
    if items == [] then 0
    else
      CountEligible(items[..|items| - 1])
      + (if Eligible(items[|items| - 1].entry, items[|items| - 1].probe) then 1 else 0)
  }

  /** Exactly one record per eligible entry: no more, no fewer. */
  lemma {:induction false} AuditCount(items: seq<Item>)
    ensures |Audit(items)| == CountEligible(items)
  {
    if items != [] {
      AuditCount(items[..|items| - 1]);
    }
  }

  /** Records come out in log order: a run over two stretches of the log sends the first
      stretch's records, then the second's. */
  lemma {:induction false} AuditConcat(xs: seq<Item>, ys: seq<Item>)
    ensures Audit(xs + ys) == Audit(xs) + Audit(ys)
  {
    if ys != [] {
      var zs := xs + ys;
      assert zs[..|zs| - 1] == xs + ys[..|ys| - 1];
      AuditConcat(xs, ys[..|ys| - 1]);
    } else {
      assert xs + ys == xs;
    }
  }

  /** Every sent record whose query failed carries the zero time in both update fields. */
  lemma {:induction false} FailedRecordsHaveZeroTimes(items: seq<Item>, k: nat)
    requires k < |Audit(items)| && Audit(items)[k].err.Some?
    ensures Audit(items)[k].thisUpdate == ZeroTime && Audit(items)[k].nextUpdate == ZeroTime
    ensures Audit(items)[k].err != Some(FetchError)
  {
    var prefix := items[..|items| - 1];
    if k < |Audit(prefix)| {
      FailedRecordsHaveZeroTimes(prefix, k);
    }
  }

  /** Certificates issued by the merge-delay intermediate contribute nothing:
      no record and no diagnostic. */
  lemma {:induction false} MergeDelayRunIsSilent(items: seq<Item>)
    requires forall i :: 0 <= i < |items| ==>
      items[i].entry.cert.Some? && items[i].entry.cert.value.issuerCN == MergeDelayIssuer
    ensures Audit(items) == [] && Diagnostics(items) == []
  {
    if items != [] {
      MergeDelayRunIsSilent(items[..|items| - 1]);
    }
  }
}
