/** The export service: the extraction run of one job (`exportToCsv`),
    its start, its cancellation, the completion reported by the write
    stream, and the artifact path. The database, the CSV serializer and
    the file system are collaborators: the row count and the pages are the
    database's answers, given as functions; the serializer is represented
    by the format it is configured with and the rows written to it. */
module Extraction {
  import opened Text
  import opened Jobs
  import opened Query
  import Admission
  import opened Registry

  /** Rows requested per page (`chunkSize`). */
  const ChunkSize: nat := 1000

  /** The columns exported when a job names none. */
  const AllColumns: seq<string> :=
    ["id", "name", "email", "signup_date", "country_code", "subscription_tier", "lifetime_value"]

  /** The storage directory used when `EXPORT_STORAGE_PATH` is unset or empty. */
  const DefaultStorage: string := "./exports"

  // ---------------------------------------------------------------------
  // Serializer configuration

  /** The columns to export: the comma-separated list the job carries,
      each name trimmed, or every column when the job names none. */
  function ColumnsToExport(columns: Option<string>): (cols: seq<string>)
    ensures cols != []
    ensures columns.None? || columns == Some("") ==> cols == AllColumns
    ensures forall i :: 0 <= i < |cols| ==> ',' !in cols[i]
  {
    if columns.Some? && columns.value != "" then
      var parts := Split(columns.value, ',');
      TrimmedPartsKeepOut(parts, ',');
      TrimEach(parts)
    else
      AllColumns
  }

  function TrimEach(parts: seq<string>): (r: seq<string>)
    ensures |r| == |parts| && forall i :: 0 <= i < |parts| ==> r[i] == Trim(parts[i])
  {
    seq(|parts|, i requires 0 <= i < |parts| => Trim(parts[i]))
  }

  /** Trimming never introduces a character. */
  lemma TrimmedPartsKeepOut(parts: seq<string>, c: char)
    requires forall i :: 0 <= i < |parts| ==> c !in parts[i]
    ensures forall i :: 0 <= i < |parts| ==> c !in Trim(parts[i])
  {
    forall i | 0 <= i < |parts| ensures c !in Trim(parts[i]) {
      var s := parts[i];
      var lead, trail := TrimIsInfix(s);
      forall k | 0 <= k < |Trim(s)| ensures Trim(s)[k] != c {
        assert Trim(s)[k] == s[lead + k];
      }
    }
  }

  /** A column name with no comma and no surrounding white space. */
  predicate BareName(name: string)
  {
    ',' !in name && Trim(name) == name
  }

  /** A column list written as bare names joined by commas is read back
      as exactly those names. */
  lemma {:induction false} ColumnsRoundTrip(names: seq<string>)
    requires names != [] && Join(names, ",") != ""
    requires forall i :: 0 <= i < |names| ==> BareName(names[i])
    ensures ColumnsToExport(Some(Join(names, ","))) == names
  {
    var text := Join(names, ",");
    forall i | 0 <= i < |names| ensures ',' !in names[i] {
      assert BareName(names[i]);
    }
    SplitJoin(names, ',');
    ColumnsOfBare(text, names);
  }

  lemma ColumnsOfBare(text: string, names: seq<string>)
    requires text != "" && Split(text, ',') == names
    requires forall i :: 0 <= i < |names| ==> BareName(names[i])
    ensures ColumnsToExport(Some(text)) == names
  {
    assert ColumnsToExport(Some(text)) == TrimEach(Split(text, ','));
    TrimEachBare(names);
  }

  lemma TrimEachBare(names: seq<string>)
    requires forall i :: 0 <= i < |names| ==> BareName(names[i])
    ensures TrimEach(names) == names
  {
    var cols := TrimEach(names);
    forall i | 0 <= i < |names| ensures cols[i] == names[i] {
      assert BareName(names[i]);
    }
    assert cols == names;
  }

  /** `job.csvOptions.delimiter || ','`. */
  function Delimiter(o: CsvOptions): (d: string)
    ensures d != ""
    ensures o.delimiter.Some? && o.delimiter.value != "" ==> d == o.delimiter.value
    ensures o.delimiter.None? || o.delimiter.value == "" ==> d == ","
  {
    if o.delimiter.Some? && o.delimiter.value != "" then o.delimiter.value else ","
  }

  /** `job.csvOptions.quoteChar || '"'`. */
  function QuoteChar(o: CsvOptions): (q: string)
    ensures q != ""
    ensures o.quoteChar.Some? && o.quoteChar.value != "" ==> q == o.quoteChar.value
    ensures o.quoteChar.None? || o.quoteChar.value == "" ==> q == "\""
  {
    if o.quoteChar.Some? && o.quoteChar.value != "" then o.quoteChar.value else "\""
  }

  /** The options the serializer is created with (a header row is always
      emitted). */
  datatype CsvFormat = CsvFormat(columns: seq<string>, delimiter: string, quote: string)

  function FormatOf(j: Job): CsvFormat
  {
    CsvFormat(ColumnsToExport(j.columns), Delimiter(j.csvOptions), QuoteChar(j.csvOptions))
  }

  // ---------------------------------------------------------------------
  // The database as seen by the extraction run

  datatype Row = Row(fields: seq<string>)

  /** A query's answer, or the message of the error it raised. */
  datatype Fetched<T> = Ok(value: T) | QueryError(message: string)

  /** `SELECT <columns> FROM users <where> ORDER BY id LIMIT $n+1 OFFSET $n+2`. */
  datatype PageQuery = PageQuery(columns: seq<string>, where: WhereClause, limit: nat, offset: nat)

  type CountSource = WhereClause -> Fetched<nat>

  type PageSource = PageQuery -> Fetched<seq<Row>>

  /** The database honours LIMIT. */
  ghost predicate PagesBounded(fetch: PageSource)
  {
    forall pq: PageQuery :: fetch(pq).Ok? ==> |fetch(pq).value| <= pq.limit
  }

  // ---------------------------------------------------------------------
  // The extraction run as a function of its inputs

  /** What is fixed once the row count is known. `cancelFrom` is the first
      page boundary at which the job's cancellation flag reads true. */
  datatype Plan = Plan(format: CsvFormat, where: WhereClause, totalRows: nat, cancelFrom: Option<nat>)

  datatype Exit = Drained | Stopped | Errored(message: string)

  /** The record of a run: how it left the loop, the serializer format,
      the row count, every `processedRows` value published with
      `setJobProgress` (empty when the count failed), the offset of every
      page query issued, and the rows handed to the serializer. */
  datatype Run = Run(
    exit: Exit,
    format: CsvFormat,
    totalRows: nat,
    reports: seq<nat>,
    offsets: seq<nat>,
    written: seq<Row>)

  predicate CancelSeen(cancelFrom: Option<nat>, boundary: nat)
  {
    cancelFrom.Some? && cancelFrom.value <= boundary
  }

  /** The boundary at which the flag is first seen: at once if it was
      already raised when the run started, otherwise when a concurrent
      cancellation lands. */
  function CancelFrom(raised: bool, arrives: Option<nat>): Option<nat>
  {
    if raised then Some(0) else arrives
  }

  function PageAt(plan: Plan, offset: nat): PageQuery
  {
    PageQuery(plan.format.columns, plan.where, ChunkSize, offset)
  }

  /** The paging loop from a given state: stop once the count is reached,
      check the flag before every fetch, stop at an empty page, fail on a
      query error, otherwise write the page and advance by one chunk. */
  function Pages(fetch: PageSource, plan: Plan, processed: nat, offset: nat,
                 reports: seq<nat>, offsets: seq<nat>, written: seq<Row>): Run
    decreases plan.totalRows - processed
  {
    if processed >= plan.totalRows then
      Run(Drained, plan.format, plan.totalRows, reports, offsets, written)
    else if CancelSeen(plan.cancelFrom, |offsets|) then
      Run(Stopped, plan.format, plan.totalRows, reports, offsets, written)
    else
      match fetch(PageAt(plan, offset))
      case QueryError(m) =>
        Run(Errored(m), plan.format, plan.totalRows, reports, offsets + [offset], written)
      case Ok(rows) =>
        if |rows| == 0 then
          Run(Drained, plan.format, plan.totalRows, reports, offsets + [offset], written)
        else
          Pages(fetch, plan, processed + |rows|, offset + ChunkSize,
                reports + [processed + |rows|], offsets + [offset], written + rows)
  }

  /** The whole run of a job: count, then page. */
  function Extract(j: Job, count: CountSource, fetch: PageSource, cancelArrives: Option<nat>): Run
  {
    var w := WhereClauseOf(j.filters);
    match count(w)
    case QueryError(m) => Run(Errored(m), FormatOf(j), 0, [], [], [])
    case Ok(total) =>
      Pages(fetch, Plan(FormatOf(j), w, total, CancelFrom(j.cancelled, cancelArrives)), 0, 0, [0], [], [])
  }

  /** The job record the run leaves behind. A drained run leaves the job
      `processing`: completion is reported later by the write stream. */
  function Settled(j: Job, run: Run, now: Time): Job
  {
    var started := j.(status := Processing);
    var counted := if run.reports == [] then started
                   else started.(progress := Progress(run.totalRows, Last(run.reports)));
    match run.exit
    case Drained => counted
    case Stopped => counted.(status := Cancelled, completedAt := Some(now), cancelled := true)
    case Errored(m) => counted.(error := Some(m), status := Failed, completedAt := Some(now))
  }

  /** The switch to `processing` made before the protected block changes
      neither what the run does nor the record it leaves behind. */
  lemma StartedIrrelevant(j: Job, count: CountSource, fetch: PageSource, cancelArrives: Option<nat>, run: Run, now: Time)
    ensures Extract(j.(status := Processing), count, fetch, cancelArrives) == Extract(j, count, fetch, cancelArrives)
    ensures Settled(j.(status := Processing), run, now) == Settled(j, run, now)
  {
  }

  // ---------------------------------------------------------------------
  // Properties of the run

  predicate Increasing(s: seq<nat>)
  {
    forall i, j :: 0 <= i < j < |s| ==> s[i] < s[j]
  }

  /** The i-th page query uses offset i * ChunkSize. */
  predicate Paged(offsets: seq<nat>)
  {
    forall i :: 0 <= i < |offsets| ==> offsets[i] == i * ChunkSize
  }

  /** The loop state the source maintains between iterations. */
  predicate LoopState(plan: Plan, processed: nat, offset: nat, reports: seq<nat>, offsets: seq<nat>, written: seq<Row>)
  {
    && offset == |offsets| * ChunkSize
    && Paged(offsets)
    && |reports| == |offsets| + 1
    && reports[0] == 0 && Last(reports) == processed
    && Increasing(reports)
    && processed == |written|
    && (plan.cancelFrom.Some? ==> |offsets| <= plan.cancelFrom.value)
  }

  lemma {:induction false} PagesShape(fetch: PageSource, plan: Plan, processed: nat, offset: nat,
                                      reports: seq<nat>, offsets: seq<nat>, written: seq<Row>)
    requires LoopState(plan, processed, offset, reports, offsets, written)
    ensures var r := Pages(fetch, plan, processed, offset, reports, offsets, written);
      && r.format == plan.format && r.totalRows == plan.totalRows
      && Paged(r.offsets)
      && r.reports != [] && r.reports[0] == 0 && Increasing(r.reports)
      && Last(r.reports) == |r.written|
      && |r.offsets| <= |r.reports| <= |r.offsets| + 1
      && (plan.cancelFrom.Some? ==> |r.offsets| <= plan.cancelFrom.value)
      && (r.exit == Stopped ==> plan.cancelFrom == Some(|r.offsets|) && Last(r.reports) < plan.totalRows)
      && (r.exit == Drained ==>
            Last(r.reports) >= plan.totalRows
            || (r.offsets != [] && fetch(PageAt(plan, Last(r.offsets))) == Ok([])))
      && (r.exit.Errored? ==>
            r.offsets != [] && fetch(PageAt(plan, Last(r.offsets))) == QueryError(r.exit.message))
    decreases plan.totalRows - processed
  {
    if processed < plan.totalRows && !CancelSeen(plan.cancelFrom, |offsets|) {
      var page := fetch(PageAt(plan, offset));
      if page.Ok? && |page.value| > 0 {
        var p', rep', off' := processed + |page.value|, reports + [processed + |page.value|], offsets + [offset];
        assert Increasing(rep') by {
          forall i, j | 0 <= i < j < |rep'| ensures rep'[i] < rep'[j] {
            if j < |reports| {
              assert rep'[i] == reports[i] && rep'[j] == reports[j];
            } else if i < |reports| - 1 {
              assert reports[i] < Last(reports);
            }
          }
        }
        PagesShape(fetch, plan, p', offset + ChunkSize, rep', off', written + page.value);
      }
    }
  }

  /** A failing count fails the run before any page is fetched. */
  lemma ExtractCountFails(j: Job, count: CountSource, fetch: PageSource, cancelArrives: Option<nat>)
    requires count(WhereClauseOf(j.filters)).QueryError?
    ensures var r := Extract(j, count, fetch, cancelArrives);
      r.exit == Errored(count(WhereClauseOf(j.filters)).message) && r.offsets == [] && r.reports == []
  {
  }

  /** The page queries of a counted run use offsets 0, 1000, 2000, ...; the
      published progress starts at 0 and strictly increases, and its last
      value is the number of rows written; cancellation is checked before
      every fetch, so no page is fetched at or after the boundary where the
      flag is first seen; the loop ends only at the count, at an empty page,
      at a failed query or at the flag. */
  lemma ExtractShape(j: Job, count: CountSource, fetch: PageSource, cancelArrives: Option<nat>)
    requires count(WhereClauseOf(j.filters)).Ok?
    ensures var total := count(WhereClauseOf(j.filters)).value;
      var plan := Plan(FormatOf(j), WhereClauseOf(j.filters), total, CancelFrom(j.cancelled, cancelArrives));
      var r := Extract(j, count, fetch, cancelArrives);
      && r.totalRows == total
      && Paged(r.offsets)
      && r.reports != [] && r.reports[0] == 0 && Increasing(r.reports)
      && Last(r.reports) == |r.written|
      && (plan.cancelFrom.Some? ==> |r.offsets| <= plan.cancelFrom.value)
      && (r.exit == Stopped ==> plan.cancelFrom == Some(|r.offsets|) && Last(r.reports) < total)
      && (r.exit == Drained ==>
            Last(r.reports) >= total
            || (r.offsets != [] && fetch(PageAt(plan, Last(r.offsets))) == Ok([])))
  {
    var plan := Plan(FormatOf(j), WhereClauseOf(j.filters), count(WhereClauseOf(j.filters)).value,
                     CancelFrom(j.cancelled, cancelArrives));
    PagesShape(fetch, plan, 0, 0, [0], [], []);
  }

  /** With a zero count the loop body never runs: no page is fetched and
      the cancellation flag is never consulted, even when it is raised. */
  lemma ExtractNoRows(j: Job, count: CountSource, fetch: PageSource, cancelArrives: Option<nat>)
    requires count(WhereClauseOf(j.filters)) == Ok(0)
    ensures var r := Extract(j, count, fetch, cancelArrives);
      r.exit == Drained && r.offsets == [] && r.written == [] && r.reports == [0]
  {
  }

  /** Pages of at most ChunkSize rows keep the processed count below the
      total plus one chunk (the count can still be overshot when the
      table grows during the run). */
  lemma {:induction false} PagesBoundedProgress(fetch: PageSource, plan: Plan, processed: nat, offset: nat,
                                                reports: seq<nat>, offsets: seq<nat>, written: seq<Row>)
    requires PagesBounded(fetch)
    requires reports != [] && Last(reports) == processed
    requires processed < plan.totalRows + ChunkSize
    ensures var r := Pages(fetch, plan, processed, offset, reports, offsets, written);
      r.reports != [] && Last(r.reports) < plan.totalRows + ChunkSize
    decreases plan.totalRows - processed
  {
    if processed < plan.totalRows && !CancelSeen(plan.cancelFrom, |offsets|) {
      var page := fetch(PageAt(plan, offset));
      if page.Ok? && |page.value| > 0 {
        assert |page.value| <= ChunkSize;
        PagesBoundedProgress(fetch, plan, processed + |page.value|, offset + ChunkSize,
                             reports + [processed + |page.value|], offsets + [offset], written + page.value);
      }
    }
  }

  lemma ExtractBoundedProgress(j: Job, count: CountSource, fetch: PageSource, cancelArrives: Option<nat>)
    requires PagesBounded(fetch) && count(WhereClauseOf(j.filters)).Ok?
    ensures var r := Extract(j, count, fetch, cancelArrives);
      r.reports != [] && Last(r.reports) < r.totalRows + ChunkSize
  {
    var total := count(WhereClauseOf(j.filters)).value;
    var plan := Plan(FormatOf(j), WhereClauseOf(j.filters), total, CancelFrom(j.cancelled, cancelArrives));
    PagesBoundedProgress(fetch, plan, 0, 0, [0], [], []);
    PagesShape(fetch, plan, 0, 0, [0], [], []);
  }

  // ---------------------------------------------------------------------
  // A source that does not change during the run

  function Min(a: nat, b: nat): nat { if a < b then a else b }

  /** The rows a page query at `offset` returns from an unchanging table
      ordered by id. */
  function Window(table: seq<Row>, offset: nat): seq<Row>
  {
    if offset >= |table| then [] else table[offset..Min(offset + ChunkSize, |table|)]
  }

  ghost predicate ServesTable(fetch: PageSource, plan: Plan, table: seq<Row>)
  {
    forall offset: nat :: fetch(PageAt(plan, offset)) == Ok(Window(table, offset))
  }

  /** How many pages it takes to read `n` rows. */
  function PageCount(n: nat): nat
  {
    (n + ChunkSize - 1) / ChunkSize
  }

  /** The page boundary where a run over `pages` pages stops. */
  function StopAt(cancelFrom: Option<nat>, pages: nat): nat
  {
    if cancelFrom.Some? && cancelFrom.value < pages then cancelFrom.value else pages
  }

  lemma {:induction false} PagesOverTable(fetch: PageSource, plan: Plan, table: seq<Row>, k: nat,
                                          reports: seq<nat>, offsets: seq<nat>)
    requires ServesTable(fetch, plan, table) && plan.totalRows == |table|
    requires k * ChunkSize <= |table| && |offsets| == k
    requires plan.cancelFrom.Some? ==> plan.cancelFrom.value >= k
    ensures var r := Pages(fetch, plan, k * ChunkSize, k * ChunkSize, reports, offsets, table[..k * ChunkSize]);
      var stop := StopAt(plan.cancelFrom, PageCount(|table|));
      && |r.offsets| == stop
      && r.written == table[..Min(stop * ChunkSize, |table|)]
      && r.exit == (if stop < PageCount(|table|) then Stopped else Drained)
    decreases |table| - k * ChunkSize
  {
    var n := PageCount(|table|);
    var here := k * ChunkSize;
    if here == |table| {
      assert n == k;
    } else if CancelSeen(plan.cancelFrom, k) {
      assert k < n;
    } else {
      var rows := Window(table, here);
      assert fetch(PageAt(plan, here)) == Ok(rows);
      var next := (k + 1) * ChunkSize;
      if next <= |table| {
        assert next == here + ChunkSize;
        assert rows == table[here..next];
        assert table[..next] == table[..here] + table[here..next];
        PagesOverTable(fetch, plan, table, k + 1, reports + [here + |rows|], offsets + [here]);
      } else {
        assert n == k + 1;
        assert rows == table[here..];
        assert table[..here] + rows == table;
        assert table[..Min(n * ChunkSize, |table|)] == table;
      }
    }
  }

  /** Over an unchanging table of exactly the counted rows, a run without
      cancellation reads every page once, in order, and writes the whole
      table; a cancellation landing at boundary c before the last page
      stops it after c pages, with the first c chunks written. */
  lemma ExtractOverTable(j: Job, count: CountSource, fetch: PageSource, cancelArrives: Option<nat>, table: seq<Row>)
    requires !j.cancelled
    requires count(WhereClauseOf(j.filters)) == Ok(|table|)
    requires ServesTable(fetch, Plan(FormatOf(j), WhereClauseOf(j.filters), |table|, cancelArrives), table)
    ensures var r := Extract(j, count, fetch, cancelArrives);
      var stop := StopAt(cancelArrives, PageCount(|table|));
      && |r.offsets| == stop
      && r.written == table[..Min(stop * ChunkSize, |table|)]
      && r.exit == (if stop < PageCount(|table|) then Stopped else Drained)
  {
    var plan := Plan(FormatOf(j), WhereClauseOf(j.filters), |table|, cancelArrives);
    assert table[..0] == [];
    PagesOverTable(fetch, plan, table, 0, [0], []);
  }

  /** 2,500 matching rows and no cancellation: three page queries at
      offsets 0, 1000 and 2000, every row written in order, and progress
      at 100 percent. */
  lemma ScenarioTwoThousandFiveHundredRows(j: Job, count: CountSource, fetch: PageSource, table: seq<Row>)
    requires !j.cancelled && |table| == 2500
    requires count(WhereClauseOf(j.filters)) == Ok(2500)
    requires ServesTable(fetch, Plan(FormatOf(j), WhereClauseOf(j.filters), 2500, None), table)
    ensures var r := Extract(j, count, fetch, None);
      && r.exit == Drained
      && r.offsets == [0, 1000, 2000]
      && r.written == table
      && Percentage(Settled(j, r, 0).progress) == 100
  {
    var r := Extract(j, count, fetch, None);
    ExtractOverTable(j, count, fetch, None, table);
    ExtractShape(j, count, fetch, None);
    assert |r.offsets| == 3;
    assert r.offsets[0] == 0 && r.offsets[1] == 1000 && r.offsets[2] == 2000;
    PercentageFull(Settled(j, r, 0).progress);
  }

  /** No matching rows: the run drains at once with nothing written, and
      the reported percentage is 0 (the total is 0). */
  lemma ScenarioNoMatches(j: Job, count: CountSource, fetch: PageSource, now: Time)
    requires count(WhereClauseOf(j.filters)) == Ok(0)
    ensures var r := Extract(j, count, fetch, None);
      && r.exit == Drained && r.offsets == [] && r.written == []
      && Settled(j, r, now).progress == Progress(0, 0)
      && Percentage(Settled(j, r, now).progress) == 0
  {
  }

  /** Every exit from the protected block leaves the job either terminal
      with `completedAt` stamped, or still processing (drained) with the
      write stream yet to report; the error is recorded exactly on failure. */
  lemma SettledStatus(j: Job, run: Run, now: Time)
    ensures var s := Settled(j, run, now);
      && (run.exit == Drained <==> s.status == Processing)
      && (run.exit == Stopped <==> s.status == Cancelled)
      && (run.exit.Errored? <==> s.status == Failed)
      && (IsTerminal(s.status) ==> s.completedAt == Some(now))
      && (!IsTerminal(s.status) ==> s.completedAt == j.completedAt)
      && (run.exit.Errored? ==> s.error == Some(run.exit.message))
      && (!run.exit.Errored? ==> s.error == j.error)
      && s.exportId == j.exportId && s.filters == j.filters && s.createdAt == j.createdAt
  {
  }

  /** The slot of a drained run is given back in `finally`, while the job
      still reads `processing` until its write stream finishes. So a
      waiting job can be admitted, and switch to `processing`, beside
      `Capacity` jobs that already read `processing`: the bound of ten
      holds for the counter, not for the jobs whose status is
      `processing`. */
  lemma SlotFreedBeforeCompletion(active: nat, j: Job, run: Run, now: Time)
    requires 0 < active <= Admission.Capacity && run.exit == Drained
    ensures Settled(j, run, now).status == Processing
    ensures Admission.Step(active, Admission.Dequeue) == active - 1
    ensures Admission.CanStart(Admission.Step(active, Admission.Dequeue))
  {
    SettledStatus(j, run, now);
  }

  // ---------------------------------------------------------------------
  // The service operations

  /** The statuses `cancelExport` acts on. */
  predicate Cancellable(s: Status)
  {
    s == Pending || s == Processing
  }

  /** `startExport`: records the job and makes the first admission
      attempt before the caller gets the job back. When a slot is free the
      counter goes up at once, and the part of `exportToCsv` that runs
      before its first `await` (`BeginExport`) runs before the caller
      resumes, so the job is already `processing`; otherwise it stays
      `pending` and later attempts are `RunWhenAdmitted` steps. */
  method StartExport(q: JobQueue, id: Id, filters: Filters, columns: Option<string>, csvOptions: CsvOptions, now: Time)
    returns (job: Job, admitted: bool)
    requires q.Valid() && id !in q.jobs
    modifies q
    ensures q.Valid()
    ensures job.exportId == id && job.status == Pending && job.progress == Progress(0, 0) && !job.cancelled
    ensures job.filters == filters && job.columns == columns && job.csvOptions == csvOptions
    ensures job.error == None && job.createdAt == now && job.completedAt == None
    ensures admitted == Admission.CanStart(old(q.activeWorkers))
    ensures q.activeWorkers == Admission.Step(old(q.activeWorkers), Admission.Enqueue)
    ensures q.jobs == old(q.jobs)[id := if admitted then job.(status := Processing) else job]
  {
    job := q.CreateJob(id, filters, columns, csvOptions, now);
    admitted := q.EnqueueJob();
    if admitted {
      var found := BeginExport(q, id, now);
    }
  }

  /** `cancelExport`: raises the flag of a pending or processing job and
      unlinks its artifact; unknown and finished jobs are left alone. */
  method CancelExport(q: JobQueue, id: Id) returns (unlinked: bool)
    requires q.Valid()
    modifies q
    ensures q.Valid() && q.activeWorkers == old(q.activeWorkers)
    ensures unlinked <==> id in old(q.jobs) && Cancellable(old(q.jobs)[id].status)
    ensures unlinked ==> q.jobs == old(q.jobs)[id := old(q.jobs)[id].(cancelled := true)]
    ensures !unlinked ==> q.jobs == old(q.jobs)
  {
    var job := q.GetJob(id);
    unlinked := false;
    if job.Some? && (job.value.status == Pending || job.value.status == Processing) {
      q.CancelJob(id);
      unlinked := true;
    }
  }

  /** `exportToCsv`. `cancelArrives` is the page boundary at which a
      concurrent `cancelExport` call lands, if one does. The result is
      `None` when the job is unknown: that return precedes the protected
      block, so the admission slot is not given back. Otherwise the slot is
      given back once the protected block ends, however it ends, and the
      partial artifact is unlinked exactly when the run was cancelled or
      failed. */
  method ExportToCsv(q: JobQueue, id: Id, count: CountSource, fetch: PageSource, cancelArrives: Option<nat>, now: Time)
    returns (run: Option<Run>, unlinked: bool)
    requires q.Valid()
    modifies q
    ensures q.Valid()
    ensures id !in old(q.jobs) ==>
      run.None? && !unlinked && q.jobs == old(q.jobs) && q.activeWorkers == old(q.activeWorkers)
    ensures id in old(q.jobs) ==>
      && run == Some(Extract(old(q.jobs)[id], count, fetch, cancelArrives))
      && q.jobs == old(q.jobs)[id := Settled(old(q.jobs)[id], run.value, now)]
      && q.activeWorkers == Admission.Step(old(q.activeWorkers), Admission.Dequeue)
      && (unlinked <==> run.value.exit != Drained)
  {
    ghost var jobs0 := q.jobs;
    var found := BeginExport(q, id, now);
    if !found {
      return None, false;
    }
    var r;
    r, unlinked := FinishExport(q, id, count, fetch, cancelArrives, now);
    run := Some(r);
    StartedIrrelevant(jobs0[id], count, fetch, cancelArrives, r, now);
    assert jobs0[id := jobs0[id].(status := Processing)][id := Settled(jobs0[id], r, now)]
        == jobs0[id := Settled(jobs0[id], r, now)];
  }

  /** The part of `exportToCsv` before its first `await`: the lookup, the
      early return for an unknown job, and the switch to `processing`. */
  method BeginExport(q: JobQueue, id: Id, now: Time) returns (found: bool)
    requires q.Valid()
    modifies q
    ensures q.Valid() && q.activeWorkers == old(q.activeWorkers)
    ensures found <==> id in old(q.jobs)
    ensures !found ==> q.jobs == old(q.jobs)
    ensures found ==> q.jobs == old(q.jobs)[id := old(q.jobs)[id].(status := Processing)]
  {
    var job := q.GetJob(id);
    found := job.Some?;
    if found {
      q.SetJobStatus(id, Processing, now);
    }
  }

  /** The rest of `exportToCsv`, from its first `await` on, for a job
      `BeginExport` found: the protected block, then the slot given back
      in `finally`. */
  method FinishExport(q: JobQueue, id: Id, count: CountSource, fetch: PageSource, cancelArrives: Option<nat>, now: Time)
    returns (run: Run, unlinked: bool)
    requires q.Valid() && id in q.jobs && q.jobs[id].status == Processing
    modifies q
    ensures q.Valid()
    ensures run == Extract(old(q.jobs)[id], count, fetch, cancelArrives)
    ensures q.jobs == old(q.jobs)[id := Settled(old(q.jobs)[id], run, now)]
    ensures q.activeWorkers == Admission.Step(old(q.activeWorkers), Admission.Dequeue)
    ensures unlinked <==> run.exit != Drained
    ensures run.exit == Drained ==> q.jobs[id].status == Processing
    ensures old(q.activeWorkers) > 0 ==> Admission.CanStart(q.activeWorkers)
  {
    var job := q.GetJob(id);
    run, unlinked := Protected(q, id, job.value, count, fetch, cancelArrives, now);
    q.DequeueJob();
    SettledStatus(job.value, run, now);
  }

  /** The protected block of `exportToCsv`, for a job already marked
      processing: count, page, and record how the run ended. */
  method Protected(q: JobQueue, id: Id, j: Job, count: CountSource, fetch: PageSource,
                   cancelArrives: Option<nat>, now: Time)
    returns (r: Run, unlinked: bool)
    requires q.Valid() && id in q.jobs && q.jobs[id] == j && j.status == Processing
    modifies q
    ensures q.Valid() && q.activeWorkers == old(q.activeWorkers)
    ensures r == Extract(j, count, fetch, cancelArrives)
    ensures q.jobs == old(q.jobs)[id := Settled(j, r, now)]
    ensures unlinked <==> r.exit != Drained
  {
    ghost var jobs0 := q.jobs;
    var w := BuildWhereClause(j.filters);
    var counted := count(w);
    if counted.QueryError? {
      q.SetJobError(id, counted.message, now);
      r, unlinked := Run(Errored(counted.message), FormatOf(j), 0, [], [], []), true;
      ghost var failed := j.(error := Some(counted.message), status := Failed, completedAt := Some(now));
      assert Settled(j, r, now) == failed;
      assert q.jobs[id] == failed;
      assert q.jobs == jobs0[id := failed];
    } else {
      var totalRows := counted.value;
      q.SetJobProgress(id, 0, totalRows);
      var format := CsvFormat(ColumnsToExport(j.columns), Delimiter(j.csvOptions), QuoteChar(j.csvOptions));
      ghost var jobs1 := q.jobs;
      r, unlinked := PageLoop(q, id, j, w, format, totalRows, fetch, cancelArrives, now);
      assert jobs1 == jobs0[id := jobs1[id]];
      assert jobs1[id := Settled(j, r, now)] == jobs0[id := Settled(j, r, now)];
    }
  }

  /** The paging loop of `exportToCsv`, from the first page to whichever
      exit it takes, with the job already marked processing and its
      progress at 0 of `totalRows`. */
  method PageLoop(q: JobQueue, id: Id, j: Job, w: WhereClause, format: CsvFormat, totalRows: nat,
                  fetch: PageSource, cancelArrives: Option<nat>, now: Time)
    returns (run: Run, unlinked: bool)
    requires q.Valid() && id in q.jobs
    requires q.jobs[id] == j.(status := Processing, progress := Progress(totalRows, 0))
    modifies q
    ensures q.Valid() && q.activeWorkers == old(q.activeWorkers)
    ensures run == Pages(fetch, Plan(format, w, totalRows, CancelFrom(j.cancelled, cancelArrives)), 0, 0, [0], [], [])
    ensures run.reports != []
    ensures q.jobs == old(q.jobs)[id := Settled(j, run, now)]
    ensures unlinked <==> run.exit != Drained
  {
    ghost var plan := Plan(format, w, totalRows, CancelFrom(j.cancelled, cancelArrives));
    ghost var final := Pages(fetch, plan, 0, 0, [0], [], []);
    ghost var base := old(q.jobs);

    var offset: nat := 0;
    var processedRows: nat := 0;
    var reports: seq<nat> := [0];
    var offsets: seq<nat> := [];
    var written: seq<Row> := [];

    while processedRows < totalRows
      invariant q.Valid() && q.activeWorkers == old(q.activeWorkers)
      invariant q.jobs == base[id := j.(status := Processing, progress := Progress(totalRows, processedRows))]
      invariant plan.cancelFrom.Some? ==> plan.cancelFrom.value >= |offsets|
      invariant reports != [] && Last(reports) == processedRows
      invariant Pages(fetch, plan, processedRows, offset, reports, offsets, written) == final
      decreases totalRows - processedRows
    {
      if cancelArrives == Some(|offsets|) {
        var unlinkedNow := CancelExport(q, id);
      }
      if q.jobs[id].cancelled {
        q.SetJobStatus(id, Cancelled, now);
        return Run(Stopped, format, totalRows, reports, offsets, written), true;
      }

      var result := fetch(PageQuery(format.columns, w, ChunkSize, offset));
      offsets := offsets + [offset];
      if result.QueryError? {
        q.SetJobError(id, result.message, now);
        return Run(Errored(result.message), format, totalRows, reports, offsets, written), true;
      }
      var rows := result.value;
      if |rows| == 0 {
        assert final == Run(Drained, format, totalRows, reports, offsets, written);
        break;
      }

      written := written + rows;
      processedRows := processedRows + |rows|;
      offset := offset + ChunkSize;
      reports := reports + [processedRows];
      q.SetJobProgress(id, processedRows, totalRows);
    }
    return Run(Drained, format, totalRows, reports, offsets, written), false;
  }

  /** A later admission attempt of a job that `StartExport` left waiting,
      followed, when it succeeds, by the whole run. For a
      known job the slot taken is given back, so the counter ends where it
      started; for a job removed while waiting the slot stays taken. */
  method RunWhenAdmitted(q: JobQueue, id: Id, count: CountSource, fetch: PageSource, cancelArrives: Option<nat>, now: Time)
    returns (admitted: bool, run: Option<Run>)
    requires q.Valid()
    modifies q
    ensures q.Valid()
    ensures admitted == Admission.CanStart(old(q.activeWorkers))
    ensures !admitted ==> run.None? && q.jobs == old(q.jobs) && q.activeWorkers == old(q.activeWorkers)
    ensures admitted && id in old(q.jobs) ==>
      && run == Some(Extract(old(q.jobs)[id], count, fetch, cancelArrives))
      && q.jobs == old(q.jobs)[id := Settled(old(q.jobs)[id], run.value, now)]
      && q.activeWorkers == old(q.activeWorkers)
    ensures admitted && id !in old(q.jobs) ==>
      run.None? && q.jobs == old(q.jobs) && q.activeWorkers == old(q.activeWorkers) + 1
  {
    admitted := q.EnqueueJob();
    run := None;
    if admitted {
      var unlinked;
      run, unlinked := ExportToCsv(q, id, count, fetch, cancelArrives, now);
    }
  }

  /** The write stream's 'finish' event: the job completes. */
  method OnWriteFinish(q: JobQueue, id: Id, now: Time)
    requires q.Valid()
    modifies q
    ensures q.Valid() && q.activeWorkers == old(q.activeWorkers)
    ensures id !in old(q.jobs) ==> q.jobs == old(q.jobs)
    ensures id in old(q.jobs) ==>
      q.jobs == old(q.jobs)[id := old(q.jobs)[id].(status := Completed, completedAt := Some(now))]
  {
    q.SetJobStatus(id, Completed, now);
  }

  /** The write stream's 'error' event: the job fails with the stream's
      message and the artifact is unlinked. */
  method OnWriteError(q: JobQueue, id: Id, message: string, now: Time) returns (unlinked: bool)
    requires q.Valid()
    modifies q
    ensures q.Valid() && q.activeWorkers == old(q.activeWorkers) && unlinked
    ensures id !in old(q.jobs) ==> q.jobs == old(q.jobs)
    ensures id in old(q.jobs) ==>
      q.jobs == old(q.jobs)[id := old(q.jobs)[id].(error := Some(message), status := Failed, completedAt := Some(now))]
  {
    q.SetJobError(id, message, now);
    unlinked := true;
  }

  // ---------------------------------------------------------------------
  // The artifact path

  /** `process.env.EXPORT_STORAGE_PATH || './exports'`. */
  function StorageDir(env: Option<string>): (dir: string)
    ensures dir != ""
    ensures env.Some? && env.value != "" ==> dir == env.value
    ensures env.None? || env.value == "" ==> dir == DefaultStorage
  {
    if env.Some? && env.value != "" then env.value else DefaultStorage
  }

  /** `getExportFilePath`: the storage directory, then the id with a
      `.csv` extension. */
  function ExportFilePath(env: Option<string>, id: Id): (path: string)
    ensures StorageDir(env) + "/" <= path
    ensures |path| == |StorageDir(env)| + |id| + 5
    ensures path[|StorageDir(env)| + 1..|StorageDir(env)| + 1 + |id|] == id
    ensures path[|path| - 4..] == ".csv"
  {
    StorageDir(env) + "/" + id + ".csv"
  }

  /** One file per job: distinct ids never share an artifact path. */
  lemma ExportFilePathInjective(env: Option<string>, a: Id, b: Id)
    requires ExportFilePath(env, a) == ExportFilePath(env, b)
    ensures a == b
  {
    var d := |StorageDir(env)| + 1;
    assert a == ExportFilePath(env, a)[d..d + |a|];
  }
}
