/**
 The whole run as data: the page the scraper meets, the records it
 accumulates row by row, and the single outcome it reports, either the
 records or one error message.
 */
module Pipeline {
  import opened Wrappers
  import opened Text
  import opened Domain
  import opened Detail

  /** One row of the summary table: its whole text, its cell texts, and what its overlay work comes to. */
  datatype SummaryRow = SummaryRow(text: string, cells: seq<string>, overlay: Overlay)

  /** Starting the browser and navigating: fine, or the exception's message. */
  datatype Launch = Started | LaunchFailed(reason: string) | NavigationFailed(reason: string)

  /**
   The page as the scraper meets it: how the launch went, whether a summary
   row appeared within the wait, and the summary rows found after it.
   */
  datatype Page = Page(launch: Launch, loaded: bool, rows: seq<SummaryRow>)

  /** The pair the scraper returns: the records, the error message, or in principle both or neither. */
  datatype ScrapeResult = ScrapeResult(data: Option<seq<Record>>, error: Option<string>)

  const DidNotLoad: string := "Error: Data did not load. Check URL."
  const TableEmpty: string := "Error: Table is empty"
  const NoDataCollected: string := "Error: No data collected"

  function Failed(message: string): ScrapeResult {
    ScrapeResult(None, Some(message))
  }

  /** The message of an exception that escapes the scraper, as it reports it. */
  function ExceptionMessage(reason: string): string {
    "Error: " + reason
  }

  /** What one summary row appends: nothing without a domain, else what its overlay work gives. */
  function RowRecords(row: SummaryRow): seq<Record> {
    match DomainOf(row.cells)
    case None => []
    case Some(d) => OverlayRecords(d, row.overlay)
  }

  /** The records each row contributes, row by row. */
  function Contributions(rows: seq<SummaryRow>): (parts: seq<seq<Record>>)
    ensures |parts| == |rows|
    ensures forall i :: 0 <= i < |rows| ==> parts[i] == RowRecords(rows[i])
  {
    seq(|rows|, i requires 0 <= i < |rows| => RowRecords(rows[i]))
  }

  /** The parts joined end to end, in order. */
  function Concat<T>(parts: seq<seq<T>>): seq<T> {
    if parts == [] then [] else Concat(parts[..|parts| - 1]) + parts[|parts| - 1]
  }

  lemma {:induction false} ConcatAppend<T>(a: seq<seq<T>>, b: seq<seq<T>>)
    ensures Concat(a + b) == Concat(a) + Concat(b)
    decreases |b|
  {
    if b == [] {
      assert a + b == a;
    } else {
      var n := |b| - 1;
      var ab := a + b;
      assert ab[..|ab| - 1] == a + b[..n];
      assert ab[|ab| - 1] == b[n];
      ConcatAppend(a, b[..n]);
      calc {
        Concat(ab);
        Concat(a + b[..n]) + b[n];
        (Concat(a) + Concat(b[..n])) + b[n];
        Concat(a) + (Concat(b[..n]) + b[n]);
        Concat(a) + Concat(b);
      }
    }
  }

  /** The accumulated records after the given rows, in row order. */
  function Collect(rows: seq<SummaryRow>): seq<Record> {
    Concat(Contributions(rows))
  }

  /** The table counts as empty when it has no row or its first row shows the sentinel. */
  predicate EmptyTable(rows: seq<SummaryRow>) {
    rows == [] || Contains(rows[0].text, NoData)
  }

  /** The outcome the scraper reports for a page. */
  function RunResult(page: Page): ScrapeResult {
    match page.launch
    case LaunchFailed(reason) => Failed(ExceptionMessage(reason))
    case NavigationFailed(reason) => Failed(ExceptionMessage(reason))
    case Started =>
      if !page.loaded then Failed(DidNotLoad)
      else if EmptyTable(page.rows) then Failed(TableEmpty)
      else if Collect(page.rows) == [] then Failed(NoDataCollected)
      else ScrapeResult(Some(Collect(page.rows)), None)
  }

  /**
   Accumulation over consecutive stretches of rows concatenates: the records
   of later rows come after those of earlier rows, and nothing already
   collected is removed or changed.
   */
  lemma ContributionsAppend(a: seq<SummaryRow>, b: seq<SummaryRow>)
    ensures Contributions(a + b) == Contributions(a) + Contributions(b)
  {
  }

  lemma {:induction false} CollectAppend(a: seq<SummaryRow>, b: seq<SummaryRow>)
    ensures Collect(a + b) == Collect(a) + Collect(b)
  {
    ContributionsAppend(a, b);
    ConcatAppend(Contributions(a), Contributions(b));
  }

  /** Records are only ever appended: what is collected after `i` rows begins what is collected after `j`. */
  lemma {:induction false} CollectAppendOnly(rows: seq<SummaryRow>, i: nat, j: nat)
    requires i <= j <= |rows|
    ensures Collect(rows[..j]) == Collect(rows[..i]) + Collect(rows[i..j])
  {
    assert rows[..j] == rows[..i] + rows[i..j];
    CollectAppend(rows[..i], rows[i..j]);
  }

  /** Taking one more row appends what that row contributes. */
  lemma {:induction false} CollectLast(rows: seq<SummaryRow>)
    requires rows != []
    ensures Collect(rows) == Collect(rows[..|rows| - 1]) + RowRecords(rows[|rows| - 1])
  {
    var n := |rows| - 1;
    assert Contributions(rows)[..n] == Contributions(rows[..n]);
  }

  lemma {:induction false} ConcatFirst<T>(parts: seq<seq<T>>)
    requires parts != []
    ensures Concat(parts) == parts[0] + Concat(parts[1..])
  {
    assert parts == [parts[0]] + parts[1..];
    ConcatAppend([parts[0]], parts[1..]);
    assert Concat([parts[0]]) == Concat<T>([]) + parts[0];
  }

  /** The first row's records come first, then those of the rest, in order. */
  lemma {:induction false} CollectFirst(rows: seq<SummaryRow>)
    requires rows != []
    ensures Collect(rows) == RowRecords(rows[0]) + Collect(rows[1..])
  {
    var parts := Contributions(rows);
    ConcatFirst(parts);
    assert parts[1..] == Contributions(rows[1..]);
  }

  /**
   A summary row contributes nothing exactly when it has no domain, or its
   overlay work completed without one qualifying nested row before the sentinel.
   */
  lemma {:induction false} RowRecordsEmptyIff(row: SummaryRow)
    ensures RowRecords(row) == [] <==>
            DomainOf(row.cells).None? ||
            (!row.overlay.interrupted &&
             forall k :: 0 <= k < |row.overlay.rows| && NoSentinelBefore(row.overlay.rows, k + 1) ==>
                           !Qualifies(row.overlay.rows[k]))
  {
    if DomainOf(row.cells).Some? {
      OverlayFallback(DomainOf(row.cells).value, row.overlay);
    }
  }

  /** Every collected record belongs to a row whose parsed domain it carries. */
  lemma {:induction false} CollectOrigin(rows: seq<SummaryRow>, r: Record)
    requires r in Collect(rows)
    ensures exists i :: 0 <= i < |rows| && DomainOf(rows[i].cells) == Some(r.domain) &&
                        r in RowRecords(rows[i])
  {
    var n := |rows| - 1;
    CollectLast(rows);
    if r in RowRecords(rows[n]) {
      var d := DomainOf(rows[n].cells).value;
      assert r in DetailRecords(d, rows[n].overlay.rows) || r == Fallback(d);
      if r in DetailRecords(d, rows[n].overlay.rows) {
        DetailRecordOrigin(d, rows[n].overlay.rows, r);
      }
    } else {
      CollectOrigin(rows[..n], r);
      var i :| 0 <= i < n && DomainOf(rows[..n][i].cells) == Some(r.domain) && r in RowRecords(rows[..n][i]);
      assert rows[..n][i] == rows[i];
    }
  }

  /** The rows that have a domain and whose overlay work was interrupted. */
  function DegradedRows(rows: seq<SummaryRow>): nat {
    if rows == [] then 0
    else
      var last := rows[|rows| - 1];
      DegradedRows(rows[..|rows| - 1]) +
      (if DomainOf(last.cells).Some? && last.overlay.interrupted then 1 else 0)
  }

  /** The result holds exactly one degraded record per degraded row, never more, never fewer. */
  lemma {:induction false} CollectFallbacks(rows: seq<SummaryRow>)
    ensures FallbackCount(Collect(rows)) == DegradedRows(rows)
  {
    if rows != [] {
      var n := |rows| - 1;
      CollectLast(rows);
      CollectFallbacks(rows[..n]);
      FallbackCountAppend(Collect(rows[..n]), RowRecords(rows[n]));
      match DomainOf(rows[n].cells)
      case None =>
      case Some(d) => OverlayFallback(d, rows[n].overlay);
    }
  }

  /**
   The caller gets either the records or one error message, never both and
   never neither; the records, when given, are all that was collected and are
   never empty.
   */
  lemma RunResultExclusive(page: Page)
    ensures RunResult(page).data.Some? != RunResult(page).error.Some?
    ensures RunResult(page).data.Some? ==>
            RunResult(page).data.value == Collect(page.rows) && RunResult(page).data.value != []
  {
  }

  /**
   Which outcome a page leads to: an escaping exception reports its message;
   a table that never loads, one whose first row is the sentinel, and a run
   that collects nothing each report their own message; any other run
   returns its records.
   */
  lemma RunResultCases(page: Page)
    ensures page.launch.LaunchFailed? || page.launch.NavigationFailed? ==>
            RunResult(page) == Failed(ExceptionMessage(page.launch.reason))
    ensures page.launch.Started? && !page.loaded ==> RunResult(page) == Failed(DidNotLoad)
    ensures page.launch.Started? && page.loaded && EmptyTable(page.rows) ==>
            RunResult(page) == Failed(TableEmpty)
    ensures page.launch.Started? && page.loaded && !EmptyTable(page.rows) && Collect(page.rows) == [] ==>
            RunResult(page) == Failed(NoDataCollected)
    ensures RunResult(page).data.Some? <==>
            page.launch.Started? && page.loaded && !EmptyTable(page.rows) && Collect(page.rows) != []
  {
  }
}
