/** The HTTP surface of the export service: submitting an export, reading
    its status, downloading its artifact and cancelling it. Requests are
    reduced to what the handlers read (query parameters, header values,
    the registry entry, whether the artifact file exists and its size);
    responses to a status code, the headers the handler sets and what the
    body carries. */
module Routes {
  import opened Text
  import opened Jobs
  import opened Registry
  import opened Extraction
  import Admission

  /** Query-string parameters, by name. */
  type Params = map<string, string>

  /** Request headers by lower-case name. */
  type Headers = map<string, string>

  /** The response headers the download handler sets. */
  datatype HeaderName =
    | ContentType | ContentDisposition | ContentEncoding | TransferEncoding
    | ContentRange | ContentLength | AcceptRanges

  /** The name each header goes out under. */
  function WireName(n: HeaderName): string
  {
    match n
    case ContentType => "Content-Type"
    case ContentDisposition => "Content-Disposition"
    case ContentEncoding => "Content-Encoding"
    case TransferEncoding => "Transfer-Encoding"
    case ContentRange => "Content-Range"
    case ContentLength => "Content-Length"
    case AcceptRanges => "Accept-Ranges"
  }

  /** An inclusive byte interval of the artifact, as handed to the file
      stream (`{ start, end }`). Not validated: `end` may precede `start`
      or lie past the end of the file. */
  datatype Interval = Interval(start: int, end: int)

  datatype Body =
    | NoBody
    | ErrorMessage(message: string)
    | Accepted(exportId: Id, status: string)
    | StatusReport(
        exportId: Id,
        status: string,
        totalRows: nat,
        processedRows: nat,
        percentage: nat,
        error: Option<string>,
        createdAt: Time,
        completedAt: Option<Time>)
    | GzipStream(path: string)
    | FileStream(path: string, interval: Option<Interval>)

  datatype Response = Response(status: nat, headers: map<HeaderName, string>, body: Body)

  predicate Streams(b: Body)
  {
    b.GzipStream? || b.FileStream?
  }

  function Failure(status: nat, message: string): Response
  {
    Response(status, map[], ErrorMessage(message))
  }

  // ---------------------------------------------------------------------
  // POST /exports/csv

  /** The query parameters that become filters. */
  const FilterParams: seq<string> := ["country_code", "subscription_tier", "min_ltv"]

  /** The parameter is present and non-empty (a truthy string). */
  predicate Truthy(params: Params, name: string)
  {
    name in params && params[name] != ""
  }

  /** `params[name] || null`. */
  function Given(params: Params, name: string): Option<string>
  {
    if Truthy(params, name) then Some(params[name]) else None
  }

  /** The filter object the handler builds: exactly the truthy filter
      parameters, with their values. */
  ghost predicate SubmittedFrom(filters: Filters, params: Params)
  {
    && (forall k :: k in filters <==> k in FilterParams && Truthy(params, k))
    && (forall k :: k in filters ==> filters[k] == params[k])
  }

  /** Reads the submission from the query string, filling a fresh filter
      object and a fresh options object key by key. */
  method ReadSubmission(params: Params) returns (filters: Filters, columns: Option<string>, csvOptions: CsvOptions)
    ensures SubmittedFrom(filters, params)
    ensures columns == Given(params, "columns")
    ensures csvOptions == CsvOptions(Given(params, "delimiter"), Given(params, "quoteChar"))
  {
    filters := map[];
    if Truthy(params, "country_code") {
      filters := filters["country_code" := params["country_code"]];
    }
    if Truthy(params, "subscription_tier") {
      filters := filters["subscription_tier" := params["subscription_tier"]];
    }
    if Truthy(params, "min_ltv") {
      filters := filters["min_ltv" := params["min_ltv"]];
    }

    var delimiter: Option<string> := None;
    var quoteChar: Option<string> := None;
    if Truthy(params, "delimiter") {
      delimiter := Some(params["delimiter"]);
    }
    if Truthy(params, "quoteChar") {
      quoteChar := Some(params["quoteChar"]);
    }
    csvOptions := CsvOptions(delimiter, quoteChar);
    columns := if Truthy(params, "columns") then Some(params["columns"]) else None;
  }

  /** A submitted filter object supplies a whitelisted key exactly when its
      query parameter is non-empty, so the clause of the export is decided
      by the query string alone; other parameters never reach it. */
  lemma SubmittedFiltersSupply(filters: Filters, params: Params, k: Query.Key)
    requires SubmittedFrom(filters, params)
    ensures Query.Supplied(k, filters) <==> Truthy(params, Query.KeyName(k))
    ensures Query.Supplied(k, filters) ==> filters[Query.KeyName(k)] == params[Query.KeyName(k)]
  {
    assert Query.KeyName(k) in FilterParams;
  }

  /** Two query strings that agree on the three filter parameters yield
      the same clause and bound values. */
  lemma SubmittedClauseDependsOnFilterParams(f: Filters, p: Params, g: Filters, p': Params)
    requires SubmittedFrom(f, p) && SubmittedFrom(g, p')
    requires forall i :: 0 <= i < |FilterParams| ==>
      (Truthy(p, FilterParams[i]) <==> Truthy(p', FilterParams[i]))
      && (Truthy(p, FilterParams[i]) ==> p[FilterParams[i]] == p'[FilterParams[i]])
    ensures Query.WhereClauseOf(f) == Query.WhereClauseOf(g)
  {
    forall k: Query.Key ensures (Query.KeyName(k) in f <==> Query.KeyName(k) in g) {
      assert Query.KeyName(k) == FilterParams[Query.Rank(k)];
    }
    forall k: Query.Key | Query.KeyName(k) in f ensures f[Query.KeyName(k)] == g[Query.KeyName(k)] {
      assert Query.KeyName(k) == FilterParams[Query.Rank(k)];
    }
    Query.OtherKeysIgnored(f, g);
  }

  /** POST /exports/csv: records the job and answers 202 with its id and
      the status the job has when the handler resumes: `processing` when a
      worker slot was free (the run has already begun), `pending` when all
      slots are taken. */
  method PostExport(q: JobQueue, params: Params, id: Id, now: Time) returns (r: Response, job: Job, admitted: bool)
    requires q.Valid() && id !in q.jobs
    modifies q
    ensures q.Valid()
    ensures admitted == Admission.CanStart(old(q.activeWorkers))
    ensures q.activeWorkers == Admission.Step(old(q.activeWorkers), Admission.Enqueue)
    ensures r == Response(202, map[], Accepted(id, if admitted then "processing" else "pending"))
    ensures q.jobs == old(q.jobs)[id := if admitted then job.(status := Processing) else job]
    ensures job.exportId == id && job.status == Pending && !job.cancelled && job.createdAt == now
    ensures job.progress == Progress(0, 0) && job.error == None && job.completedAt == None
    ensures SubmittedFrom(job.filters, params)
    ensures job.columns == Given(params, "columns")
    ensures job.csvOptions == CsvOptions(Given(params, "delimiter"), Given(params, "quoteChar"))
  {
    var filters, columns, csvOptions := ReadSubmission(params);
    job, admitted := StartExport(q, id, filters, columns, csvOptions, now);
    var current := q.GetJob(id);
    r := Response(202, map[], Accepted(current.value.exportId, StatusName(current.value.status)));
  }

  // ---------------------------------------------------------------------
  // GET /exports/:exportId/status

  /** The status response for the registry entry, if any. */
  function StatusResponse(job: Option<Job>): (r: Response)
    ensures job.None? <==> r.status == 404
    ensures job.None? ==> r == Failure(404, "Export not found")
    ensures job.Some? ==>
      && r.status == 200 && r.body.StatusReport?
      && r.body.exportId == job.value.exportId
      && r.body.status == StatusName(job.value.status)
      && r.body.totalRows == job.value.progress.totalRows
      && r.body.processedRows == job.value.progress.processedRows
      && r.body.percentage == Percentage(job.value.progress) && r.body.percentage <= 100
      && r.body.error == job.value.error
      && r.body.createdAt == job.value.createdAt
      && r.body.completedAt == job.value.completedAt
  {
    if job.None? then Failure(404, "Export not found")
    else
      var j := job.value;
      Response(200, map[], StatusReport(
        j.exportId, StatusName(j.status), j.progress.totalRows, j.progress.processedRows,
        Percentage(j.progress), j.error, j.createdAt, j.completedAt))
  }

  /** GET /exports/:exportId/status against the registry. */
  method GetStatus(q: JobQueue, id: Id) returns (r: Response)
    requires q.Valid()
    ensures r == StatusResponse(if id in q.jobs then Some(q.jobs[id]) else None)
  {
    r := StatusResponse(q.GetJob(id));
  }

  // ---------------------------------------------------------------------
  // GET /exports/:exportId/download

  /** `req.headers['accept-encoding'] || ''` mentions gzip. */
  predicate AcceptsGzip(h: Headers)
  {
    "accept-encoding" in h && Contains(h["accept-encoding"], "gzip")
  }

  /** A non-empty `Range` header is present. */
  predicate RangeRequested(h: Headers)
  {
    "range" in h && h["range"] != ""
  }

  /** `range.replace(/bytes=/, '').split('-')`. */
  function RangeParts(range: string): (parts: seq<string>)
    ensures |parts| >= 1
  {
    Split(RemoveFirst(range, "bytes="), '-')
  }

  /** The second part is present and non-empty (a truthy `parts[1]`). */
  predicate HasEnd(parts: seq<string>)
  {
    |parts| > 1 && parts[1] != ""
  }

  /** The parts that `parseInt` reads start with a decimal digit. */
  predicate NumericRange(range: string)
  {
    var parts := RangeParts(range);
    ParseInt(parts[0]).Some? && (HasEnd(parts) ==> ParseInt(parts[1]).Some?)
  }

  /** The file can be served: the job is known and completed and the
      artifact exists. */
  predicate Downloadable(job: Option<Job>, fileExists: bool)
  {
    job.Some? && job.value.status == Completed && fileExists
  }

  /** The requested bytes: the first part, and the second one or, when it
      is missing, the last byte of the file. */
  function RangeBounds(range: string, fileSize: nat): (b: Interval)
    requires NumericRange(range)
    ensures b.start == ParseInt(RangeParts(range)[0]).value
    ensures HasEnd(RangeParts(range)) ==> b.end == ParseInt(RangeParts(range)[1]).value
    ensures !HasEnd(RangeParts(range)) ==> b.end == fileSize - 1
  {
    var parts := RangeParts(range);
    var start := ParseInt(parts[0]).value;
    var end := if HasEnd(parts) then ParseInt(parts[1]).value as int else fileSize - 1;
    Interval(start, end)
  }

  function Disposition(id: Id): string
  {
    "attachment; filename=\"export_" + id + ".csv\""
  }

  /** `bytes ${start}-${end}/${fileSize}`. */
  function RangeValue(b: Interval, fileSize: nat): string
  {
    "bytes " + IntToString(b.start) + "-" + IntToString(b.end) + "/" + NatToString(fileSize)
  }

  /** The download decision. The checks run in order (unknown job,
      unfinished job, missing file); only then is a body streamed, gzip
      taking precedence over a range. */
  function Download(id: Id, job: Option<Job>, storage: Option<string>, fileExists: bool, fileSize: nat, h: Headers)
    : (r: Response)
    requires Downloadable(job, fileExists) && !AcceptsGzip(h) && RangeRequested(h) ==> NumericRange(h["range"])
    ensures job.None? ==> r == Failure(404, "Export not found")
    ensures job.Some? && job.value.status != Completed ==> r == Failure(425, "Export not yet completed")
    ensures job.Some? && job.value.status == Completed && !fileExists ==> r == Failure(404, "File not found")
    ensures Streams(r.body) <==> Downloadable(job, fileExists)
    ensures Streams(r.body) ==>
      && r.body.path == ExportFilePath(storage, id)
      && ContentType in r.headers && r.headers[ContentType] == "text/csv"
      && ContentDisposition in r.headers && r.headers[ContentDisposition] == Disposition(id)
    ensures Downloadable(job, fileExists) && AcceptsGzip(h) ==>
      && r.status == 200 && r.body.GzipStream?
      && ContentEncoding in r.headers && r.headers[ContentEncoding] == "gzip"
      && ContentRange !in r.headers && ContentLength !in r.headers
    ensures Downloadable(job, fileExists) && !AcceptsGzip(h) && RangeRequested(h) ==>
      var b := RangeBounds(h["range"], fileSize);
      && r.status == 206 && r.body == FileStream(ExportFilePath(storage, id), Some(b))
      && ContentRange in r.headers && r.headers[ContentRange] == RangeValue(b, fileSize)
      && ContentLength in r.headers && r.headers[ContentLength] == IntToString(b.end - b.start + 1)
    ensures Downloadable(job, fileExists) && !AcceptsGzip(h) && !RangeRequested(h) ==>
      && r.status == 200 && r.body == FileStream(ExportFilePath(storage, id), None)
      && ContentLength in r.headers && r.headers[ContentLength] == NatToString(fileSize)
      && ContentRange !in r.headers
  {
    if job.None? then Failure(404, "Export not found")
    else if job.value.status != Completed then Failure(425, "Export not yet completed")
    else if !fileExists then Failure(404, "File not found")
    else
      var path := ExportFilePath(storage, id);
      if AcceptsGzip(h) then GzipResponse(id, path)
      else if RangeRequested(h) then RangeResponse(id, path, RangeBounds(h["range"], fileSize), fileSize)
      else FullResponse(id, path, fileSize)
  }

  /** The compressed download: chunked, with no length. */
  function GzipResponse(id: Id, path: string): Response
  {
    Response(200,
      map[ContentEncoding := "gzip", ContentType := "text/csv",
          ContentDisposition := Disposition(id), TransferEncoding := "chunked"],
      GzipStream(path))
  }

  /** The partial download of the interval `b`. */
  function RangeResponse(id: Id, path: string, b: Interval, fileSize: nat): Response
  {
    Response(206,
      map[ContentRange := RangeValue(b, fileSize), ContentLength := IntToString(b.end - b.start + 1),
          AcceptRanges := "bytes", ContentType := "text/csv", ContentDisposition := Disposition(id)],
      FileStream(path, Some(b)))
  }

  /** The whole file, with its size as the length. */
  function FullResponse(id: Id, path: string, fileSize: nat): Response
  {
    Response(200,
      map[ContentLength := NatToString(fileSize), AcceptRanges := "bytes",
          ContentType := "text/csv", ContentDisposition := Disposition(id)],
      FileStream(path, None))
  }

  /** With gzip accepted, the `Range` header makes no difference. */
  lemma GzipIgnoresRange(id: Id, job: Option<Job>, storage: Option<string>, fileExists: bool, fileSize: nat,
                         h: Headers, range: string)
    requires AcceptsGzip(h)
    ensures Download(id, job, storage, fileExists, fileSize, h)
         == Download(id, job, storage, fileExists, fileSize, h["range" := range])
    ensures Download(id, job, storage, fileExists, fileSize, h)
         == Download(id, job, storage, fileExists, fileSize, h - {"range"})
  {
    assert h["range" := range]["accept-encoding"] == h["accept-encoding"];
    assert (h - {"range"})["accept-encoding"] == h["accept-encoding"];
  }

  /** `bytes=` followed by two dash-free pieces around a dash splits into
      those pieces. */
  lemma RangePartsOf(a: string, b: string)
    requires '-' !in a && '-' !in b
    ensures RangeParts("bytes=" + (a + "-" + b)) == [a, b]
  {
    RemoveFirstPrefix("bytes=", a + "-" + b);
    SplitPair(a, b, '-');
  }

  /** `Range: bytes=S-E` splits into the two numerals. */
  lemma RangeHeaderParts(s: nat, e: nat)
    ensures RangeParts("bytes=" + NatToString(s) + "-" + NatToString(e)) == [NatToString(s), NatToString(e)]
  {
    var a, b := NatToString(s), NatToString(e);
    assert "bytes=" + a + "-" + b == "bytes=" + (a + "-" + b);
    NoDash(a);
    NoDash(b);
    RangePartsOf(a, b);
  }

  /** `Range: bytes=S-` splits into the numeral and an empty part. */
  lemma OpenRangeHeaderParts(s: nat)
    ensures RangeParts("bytes=" + NatToString(s) + "-") == [NatToString(s), ""]
  {
    var a := NatToString(s);
    assert "bytes=" + a + "-" == "bytes=" + (a + "-" + "");
    NoDash(a);
    RangePartsOf(a, "");
  }

  lemma NoDash(d: string)
    requires AllDigits(d)
    ensures '-' !in d
  {
    forall i | 0 <= i < |d| ensures d[i] != '-' {
      assert IsDigit(d[i]);
    }
  }

  /** A numeral read on its own gives back its number. */
  lemma ParseNumeral(n: nat)
    ensures ParseInt(NatToString(n)) == Some(n)
  {
    ParseIntOfNatToString(n, []);
    assert NatToString(n) + [] == NatToString(n);
  }

  /** A completed export asked for `bytes=S-E` answers with the partial
      response for S..E. */
  lemma RangeDownloadResponse(id: Id, j: Job, storage: Option<string>, fileSize: nat, h: Headers, s: nat, e: nat)
    requires j.status == Completed && !AcceptsGzip(h)
    requires "range" in h && h["range"] == "bytes=" + NatToString(s) + "-" + NatToString(e)
    ensures NumericRange(h["range"])
    ensures Download(id, Some(j), storage, true, fileSize, h)
         == RangeResponse(id, ExportFilePath(storage, id), Interval(s, e), fileSize)
  {
    RangeHeaderParts(s, e);
    ParseNumeral(s);
    ParseNumeral(e);
    assert RangeBounds(h["range"], fileSize) == Interval(s, e);
  }

  /** The partial response for S..E, header by header. */
  lemma RangeHeadersOf(id: Id, path: string, s: nat, e: int, fileSize: nat)
    ensures var r := RangeResponse(id, path, Interval(s, e), fileSize);
      && r.status == 206 && r.body == FileStream(path, Some(Interval(s, e)))
      && ContentRange in r.headers && r.headers[ContentRange] == RangeValue(Interval(s, e), fileSize)
      && ContentLength in r.headers && r.headers[ContentLength] == IntToString(e - s + 1)
      && AcceptRanges in r.headers && r.headers[AcceptRanges] == "bytes"
  {
  }

  /** A range starting at a natural number prints its start as a plain
      numeral. */
  lemma RangeValueOf(s: nat, e: int, fileSize: nat)
    ensures RangeValue(Interval(s, e), fileSize)
         == "bytes " + NatToString(s) + "-" + IntToString(e) + "/" + NatToString(fileSize)
  {
    assert IntToString(s) == NatToString(s);
  }

  /** A range request `bytes=S-E` for a completed export is answered 206
      with `Content-Range: bytes S-E/size`, `Content-Length: E - S + 1` and
      exactly those bytes, whatever S and E are: nothing is validated. */
  lemma RangeDownload(id: Id, j: Job, storage: Option<string>, fileSize: nat, h: Headers, s: nat, e: nat)
    requires j.status == Completed && !AcceptsGzip(h)
    requires "range" in h && h["range"] == "bytes=" + NatToString(s) + "-" + NatToString(e)
    ensures NumericRange(h["range"])
    ensures var r := Download(id, Some(j), storage, true, fileSize, h);
      && r.status == 206
      && r.body == FileStream(ExportFilePath(storage, id), Some(Interval(s, e)))
      && r.headers[ContentRange] == "bytes " + NatToString(s) + "-" + NatToString(e) + "/" + NatToString(fileSize)
      && r.headers[ContentLength] == IntToString(e - s + 1)
      && r.headers[AcceptRanges] == "bytes"
  {
    RangeDownloadResponse(id, j, storage, fileSize, h, s, e);
    RangeHeadersOf(id, ExportFilePath(storage, id), s, e, fileSize);
    RangeValueOf(s, e, fileSize);
    assert IntToString(e) == NatToString(e);
  }

  /** A completed export asked for `bytes=S-` answers with the partial
      response from S to the last byte. */
  lemma OpenRangeDownloadResponse(id: Id, j: Job, storage: Option<string>, fileSize: nat, h: Headers, s: nat)
    requires j.status == Completed && !AcceptsGzip(h)
    requires "range" in h && h["range"] == "bytes=" + NatToString(s) + "-"
    ensures NumericRange(h["range"])
    ensures Download(id, Some(j), storage, true, fileSize, h)
         == RangeResponse(id, ExportFilePath(storage, id), Interval(s, fileSize - 1), fileSize)
  {
    OpenRangeHeaderParts(s);
    ParseNumeral(s);
    assert RangeBounds(h["range"], fileSize) == Interval(s, fileSize - 1);
  }

  /** `bytes=S-` runs to the last byte of the file. */
  lemma OpenRangeDownload(id: Id, j: Job, storage: Option<string>, fileSize: nat, h: Headers, s: nat)
    requires j.status == Completed && !AcceptsGzip(h)
    requires "range" in h && h["range"] == "bytes=" + NatToString(s) + "-"
    ensures NumericRange(h["range"])
    ensures var r := Download(id, Some(j), storage, true, fileSize, h);
      && r.status == 206
      && r.body == FileStream(ExportFilePath(storage, id), Some(Interval(s, fileSize - 1)))
      && r.headers[ContentRange] == "bytes " + NatToString(s) + "-" + IntToString(fileSize - 1) + "/" + NatToString(fileSize)
      && r.headers[ContentLength] == IntToString(fileSize - s)
  {
    OpenRangeDownloadResponse(id, j, storage, fileSize, h, s);
    RangeHeadersOf(id, ExportFilePath(storage, id), s, fileSize - 1, fileSize);
    RangeValueOf(s, fileSize - 1, fileSize);
  }

  /** A run never leaves its job completed: completion comes only from the
      write stream, so until then every download is refused with 425. */
  lemma NotServedBeforeFinish(id: Id, j: Job, run: Run, now: Time, storage: Option<string>,
                              fileExists: bool, fileSize: nat, h: Headers)
    ensures Download(id, Some(Settled(j, run, now)), storage, fileExists, fileSize, h)
         == Failure(425, "Export not yet completed")
  {
    SettledStatus(j, run, now);
  }

  /** 2,500 rows, no cancellation, and the write stream finished: the
      status reads completed at 100 percent with a completion time. */
  lemma ScenarioCompletedReport(j: Job, count: CountSource, fetch: PageSource, table: seq<Row>, now: Time, later: Time)
    requires !j.cancelled && |table| == 2500
    requires count(Query.WhereClauseOf(j.filters)) == Ok(2500)
    requires ServesTable(fetch, Plan(FormatOf(j), Query.WhereClauseOf(j.filters), 2500, None), table)
    ensures var finished := Settled(j, Extract(j, count, fetch, None), now).(status := Completed, completedAt := Some(later));
      var r := StatusResponse(Some(finished));
      r.status == 200 && r.body.status == "completed" && r.body.percentage == 100 && r.body.completedAt == Some(later)
  {
    ScenarioTwoThousandFiveHundredRows(j, count, fetch, table);
    var run := Extract(j, count, fetch, None);
    assert Settled(j, run, now).progress == Settled(j, run, 0).progress;
  }

  // ---------------------------------------------------------------------
  // DELETE /exports/:exportId

  /** DELETE /exports/:exportId: 404 for an unknown id; otherwise the
      cancellation is requested and the answer is 204 whatever the job's
      status, though only a pending or processing job is flagged. */
  method DeleteExport(q: JobQueue, id: Id) returns (r: Response)
    requires q.Valid()
    modifies q
    ensures q.Valid() && q.activeWorkers == old(q.activeWorkers)
    ensures id !in old(q.jobs) ==> r == Failure(404, "Export not found") && q.jobs == old(q.jobs)
    ensures id in old(q.jobs) ==> r == Response(204, map[], NoBody)
    ensures id in old(q.jobs) && Cancellable(old(q.jobs)[id].status) ==>
      q.jobs == old(q.jobs)[id := old(q.jobs)[id].(cancelled := true)]
    ensures id in old(q.jobs) && !Cancellable(old(q.jobs)[id].status) ==> q.jobs == old(q.jobs)
  {
    var job := q.GetJob(id);
    if job.None? {
      return Failure(404, "Export not found");
    }
    var unlinked := CancelExport(q, id);
    r := Response(204, map[], NoBody);
  }
}
