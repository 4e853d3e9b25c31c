/** The export job record (`ExportJob`) and its derived percentage. */
module Jobs {
  import opened Text

  /** Job identifiers are the opaque strings a UUID generator hands out. */
  type Id = string

  /** Timestamps are abstract clock readings. */
  type Time = nat

  datatype Status = Pending | Processing | Completed | Failed | Cancelled

  /** The statuses on which `setJobStatus` stamps `completedAt`. */
  predicate IsTerminal(s: Status)
  {
    s == Completed || s == Failed || s == Cancelled
  }

  /** The status as the JSON responses spell it. */
  function StatusName(s: Status): string
  {
    match s
    case Pending => "pending"
    case Processing => "processing"
    case Completed => "completed"
    case Failed => "failed"
    case Cancelled => "cancelled"
  }

  /** Distinct statuses are reported under distinct names. */
  lemma StatusNameInjective(s: Status, t: Status)
    requires StatusName(s) == StatusName(t)
    ensures s == t
  {
    assert StatusName(s)[0] == StatusName(t)[0];
    assert StatusName(s)[1] == StatusName(t)[1];
  }

  datatype Progress = Progress(totalRows: nat, processedRows: nat)

  /** The CSV options a request asked for; absent ones take defaults later. */
  datatype CsvOptions = CsvOptions(delimiter: Option<string>, quoteChar: Option<string>)

  /** A filter object: query-parameter names to their string values. */
  type Filters = map<string, string>

  datatype Job = Job(
    exportId: Id,
    filters: Filters,
    columns: Option<string>,
    csvOptions: CsvOptions,
    status: Status,
    progress: Progress,
    error: Option<string>,
    createdAt: Time,
    completedAt: Option<Time>,
    cancelled: bool)

  /** `getPercentage`: 0 for an unknown total, otherwise
      `Math.round((p / t) * 100)` capped at 100. The model computes it on
      exact rationals as floor((200p + t) / 2t), the nearest whole number
      with halves rounding up. The source computes in doubles, where an
      exact half can fall just below: at 23 of 40 the source reports 57
      and the model 58. */
  function Percentage(p: Progress): (r: nat)
    ensures r <= 100
    ensures p.totalRows == 0 ==> r == 0
  {
    if p.totalRows == 0 then 0
    else
      var rounded := (200 * p.processedRows + p.totalRows) / (2 * p.totalRows);
      if rounded < 100 then rounded else 100
  }

  /** Below the cap the percentage is the nearest whole number to
      100 * processed / total, halves rounding up. */
  lemma PercentageRoundsHalfUp(p: Progress)
    requires p.totalRows > 0 && p.processedRows <= p.totalRows
    ensures var r := Percentage(p);
      2 * p.totalRows * r <= 200 * p.processedRows + p.totalRows < 2 * p.totalRows * (r + 1)
  {
    var t, n := p.totalRows, 200 * p.processedRows + p.totalRows;
    var q := n / (2 * t);
    assert n == q * (2 * t) + n % (2 * t);
    assert q * (2 * t) <= n < q * (2 * t) + 2 * t;
    assert n <= 201 * t < 101 * (2 * t);
    BelowProduct(q, 101, 2 * t);
    assert Percentage(p) == q;
  }

  /** Once every counted row is processed the percentage reads 100. */
  lemma PercentageFull(p: Progress)
    requires 0 < p.totalRows <= p.processedRows
    ensures Percentage(p) == 100
  {
    var t, n := p.totalRows, 200 * p.processedRows + p.totalRows;
    var q := n / (2 * t);
    assert n == q * (2 * t) + n % (2 * t);
    assert 99 * (2 * t) < n - n % (2 * t) + 2 * t;
    assert 99 * (2 * t) < (q + 1) * (2 * t);
    BelowProduct(99, q + 1, 2 * t);
  }

  /** More processed rows never lower the percentage. */
  lemma PercentageMonotone(p: Progress, p': Progress)
    requires p.totalRows == p'.totalRows && p.processedRows <= p'.processedRows
    ensures Percentage(p) <= Percentage(p')
  {
    var t := p.totalRows;
    if t > 0 {
      var n, n' := 200 * p.processedRows + t, 200 * p'.processedRows + t;
      var q, q' := n / (2 * t), n' / (2 * t);
      assert n == q * (2 * t) + n % (2 * t);
      assert n' == q' * (2 * t) + n' % (2 * t);
      assert q * (2 * t) < (q' + 1) * (2 * t);
      BelowProduct(q, q' + 1, 2 * t);
    }
  }

  lemma BelowProduct(a: int, b: int, c: int)
    requires c > 0 && a * c < b * c
    ensures a < b
  {
    if a >= b {
      MulMonotone(b, a, c);
    }
  }

  lemma MulMonotone(a: int, b: int, c: int)
    requires a <= b && c > 0
    ensures a * c <= b * c
  {
    assert b * c == a * c + (b - a) * c;
  }
}
