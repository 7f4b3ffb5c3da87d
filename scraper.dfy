/**
 The scraper's control flow as it runs: the scan of a row's cells for its
 domain (a loop with `break`), the read of an overlay's nested rows into the
 accumulated records (a loop with `break`, then the degraded record on an
 exception), and the run over all summary rows (a loop with `continue`),
 each proved to compute the specification functions of the pipeline.
 */
module Scraper {
  import opened Wrappers
  import opened Text
  import opened Domain
  import opened Detail
  import opened Pipeline

  /** The scan of `cells[1:4]` that stops at the first domain-shaped cell. */
  method ScanDomain(cells: seq<string>) returns (domain: Option<string>)
    ensures domain == DomainOf(cells)
  {
    domain := None;
    var i := 1;
    while i < WindowEnd && i < |cells|
      invariant 1 <= i <= WindowEnd
      invariant DomainOf(cells) == DomainFrom(cells, i)
      decreases WindowEnd - i
    {
      var txt := Strip(cells[i]);
      if txt != [] && '.' in txt && |Split(txt)| == 1 {
        domain := Some(txt);
        break;
      }
      i := i + 1;
    }
  }

  /** One step of the nested-row loop: what was accumulated so far, plus one more non-sentinel row's records. */
  lemma {:induction false} ReadStep(domain: string, rows: seq<NestedRow>, i: nat, records: seq<Record>)
    requires i < |rows| && NoSentinelBefore(rows, i + 1)
    ensures records + DetailRecords(domain, rows[..i + 1]) ==
            (records + DetailRecords(domain, rows[..i])) + LineRecords(domain, rows[i])
  {
    DetailRecordsSnoc(domain, rows, i);
  }

  /** One nested row before the sentinel: append its record when it has two cells and a real seller. */
  method ReadNestedRow(domain: string, mrow: NestedRow, records: seq<Record>) returns (out: seq<Record>)
    ensures out == records + LineRecords(domain, mrow)
  {
    out := records;
    if |mrow.cells| >= 2 {
      var seller := Strip(mrow.cells[0]);
      var price := Strip(mrow.cells[1]);
      if seller != "" && seller != NoData {
        out := out + [Record(domain, seller, price)];
      }
    }
  }

  /**
   The overlay work for one row with a domain: append a record for every
   qualifying nested row until the sentinel row, and one degraded record when
   an exception cut the work short.
   */
  method ReadOverlay(domain: string, overlay: Overlay, records: seq<Record>) returns (out: seq<Record>)
    ensures out == records + OverlayRecords(domain, overlay)
  {
    out := records;
    var rows := overlay.rows;
    var i := 0;
    while i < |rows|
      invariant 0 <= i <= |rows|
      invariant NoSentinelBefore(rows, i)
      invariant out == records + DetailRecords(domain, rows[..i])
    {
      var mrow := rows[i];
      if Contains(mrow.text, NoData) {
        DetailStopsAtSentinel(domain, rows, i);
        break;
      }
      out := ReadNestedRow(domain, mrow, out);
      ReadStep(domain, rows, i, records);
      i := i + 1;
    }
    if i == |rows| {
      assert rows[..i] == rows;
    }
    if overlay.interrupted {
      out := out + [Fallback(domain)];
    }
  }

  /**
   One run over a page: the readiness checks, then every summary row in
   order. Also says whether the browser was told to quit.
   */
  method Scrape(page: Page) returns (result: ScrapeResult, quit: bool)
    ensures result == RunResult(page)
    ensures quit <==> page.launch.Started?
  {
    match page.launch {
      case LaunchFailed(reason) =>
        return Failed(ExceptionMessage(reason)), false;
      case NavigationFailed(reason) =>
        return Failed(ExceptionMessage(reason)), false;
      case Started =>
    }
    if !page.loaded {
      return Failed(DidNotLoad), true;
    }
    var rows := page.rows;
    if rows == [] || Contains(rows[0].text, NoData) {
      return Failed(TableEmpty), true;
    }
    var allData: seq<Record> := [];
    var idx := 0;
    while idx < |rows|
      invariant 0 <= idx <= |rows|
      invariant allData == Collect(rows[..idx])
    {
      var row := rows[idx];
      idx := idx + 1;
      CollectLast(rows[..idx]);
      assert rows[..idx][..idx - 1] == rows[..idx - 1];
      if |row.cells| < 2 {
        DomainOfNone(row.cells);
        continue;
      }
      var domain := ScanDomain(row.cells);
      if domain.None? {
        continue;
      }
      allData := ReadOverlay(domain.value, row.overlay, allData);
    }
    assert rows[..idx] == rows;
    quit := true;
    if allData != [] {
      result := ScrapeResult(Some(allData), None);
    } else {
      result := Failed(NoDataCollected);
    }
  }
}
