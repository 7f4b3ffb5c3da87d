/**
 The detail overlay of one summary row, taken as data: the nested rows the
 scraper read from the overlay's table, and whether an exception cut the
 overlay work short after them (a missing trigger, an overlay that never
 became visible, a nested row that could not be read, or a failed Escape
 fallback after the close button could not be used).
 From that, the records the row contributes.
 */
module Detail {
  import opened Text

  /** One output record: a domain with one seller and its price. */
  datatype Record = Record(domain: string, seller: string, price: string)

  /** One row of the overlay's nested table: its whole text and its cell texts. */
  datatype NestedRow = NestedRow(text: string, cells: seq<string>)

  /**
   What the overlay work on one row came to. `rows` are the nested rows that
   were read in full; when `interrupted`, an exception followed them. A
   trigger that is missing or an overlay that never shows is `rows == []`
   with `interrupted`.
   */
  datatype Overlay = Overlay(rows: seq<NestedRow>, interrupted: bool)

  /** The sentinel text of an empty table. */
  const NoData: string := "No data available"

  /** The degraded record kept for a domain whose overlay work failed. */
  function Fallback(domain: string): Record {
    Record(domain, "", "")
  }

  /** A nested row that ends the reading: its text contains the sentinel. */
  predicate IsSentinel(row: NestedRow) {
    Contains(row.text, NoData)
  }

  /** A nested row that yields a record: two cells or more, a seller that is neither empty nor the sentinel. */
  predicate Qualifies(row: NestedRow) {
    |row.cells| >= 2 && Strip(row.cells[0]) != "" && Strip(row.cells[0]) != NoData
  }

  /** The record a qualifying nested row yields. */
  function LineRecord(domain: string, row: NestedRow): Record
    requires |row.cells| >= 2
  {
    Record(domain, Strip(row.cells[0]), Strip(row.cells[1]))
  }

  /** What one nested row before the sentinel adds: its record, or nothing. */
  function LineRecords(domain: string, row: NestedRow): seq<Record> {
    if Qualifies(row) then [LineRecord(domain, row)] else []
  }

  /** A record as it comes from a nested row: a real seller, never a fallback. */
  predicate IsRealRecord(domain: string, r: Record) {
    r.domain == domain && r.seller != "" && r.seller != NoData
  }

  /**
   The records read from the nested rows, in order, stopping at the first
   sentinel row. Every one carries the row's domain and a real seller.
   */
  function DetailRecords(domain: string, rows: seq<NestedRow>): (rs: seq<Record>)
    ensures |rs| <= |rows|
    ensures forall k :: 0 <= k < |rs| ==> IsRealRecord(domain, rs[k])
  {
    if rows == [] || IsSentinel(rows[0]) then []
    else LineRecords(domain, rows[0]) + DetailRecords(domain, rows[1..])
  }

  /** What the overlay work on a row with this domain appends. */
  function OverlayRecords(domain: string, overlay: Overlay): seq<Record> {
    DetailRecords(domain, overlay.rows) + (if overlay.interrupted then [Fallback(domain)] else [])
  }

  /** No sentinel among the first `n` nested rows. */
  predicate NoSentinelBefore(rows: seq<NestedRow>, n: int)
    requires 0 <= n <= |rows|
  {
    forall j :: 0 <= j < n ==> !IsSentinel(rows[j])
  }

  /** Reading one more nested row, when it is not a sentinel, appends what it yields. */
  lemma {:induction false} DetailRecordsSnoc(domain: string, rows: seq<NestedRow>, n: nat)
    requires n < |rows| && NoSentinelBefore(rows, n + 1)
    ensures DetailRecords(domain, rows[..n + 1]) ==
            DetailRecords(domain, rows[..n]) + LineRecords(domain, rows[n])
  {
    if n > 0 {
      assert rows[..n + 1][1..] == rows[1..][..n];
      assert rows[..n][1..] == rows[1..][..n - 1];
      DetailRecordsSnoc(domain, rows[1..], n - 1);
    }
  }

  /** Nothing after the first sentinel row contributes: the reading stops there. */
  lemma {:induction false} DetailStopsAtSentinel(domain: string, rows: seq<NestedRow>, n: nat)
    requires n < |rows| && IsSentinel(rows[n])
    ensures DetailRecords(domain, rows) == DetailRecords(domain, rows[..n])
  {
    if n > 0 && !IsSentinel(rows[0]) {
      assert rows[..n][1..] == rows[1..][..n - 1];
      DetailStopsAtSentinel(domain, rows[1..], n - 1);
    }
  }

  /**
   Every record read from the nested rows comes from one qualifying nested
   row, with no sentinel at or before it: seller and price are that row's
   stripped cells 0 and 1.
   */
  lemma {:induction false} DetailRecordOrigin(domain: string, rows: seq<NestedRow>, r: Record)
    requires r in DetailRecords(domain, rows)
    ensures exists k :: 0 <= k < |rows| && NoSentinelBefore(rows, k + 1) && Qualifies(rows[k]) &&
                        r == LineRecord(domain, rows[k])
  {
    if rows != [] && !IsSentinel(rows[0]) {
      if r in LineRecords(domain, rows[0]) {
        assert NoSentinelBefore(rows, 1);
      } else {
        DetailRecordOrigin(domain, rows[1..], r);
        var k :| 0 <= k < |rows[1..]| && NoSentinelBefore(rows[1..], k + 1) &&
                 Qualifies(rows[1..][k]) && r == LineRecord(domain, rows[1..][k]);
        assert rows[1..][k] == rows[k + 1];
        assert NoSentinelBefore(rows, k + 2) by {
          forall j | 0 <= j < k + 2 ensures !IsSentinel(rows[j]) {
            if j > 0 { assert rows[j] == rows[1..][j - 1]; }
          }
        }
      }
    }
  }

  /** Every qualifying nested row before the first sentinel yields its record. */
  lemma {:induction false} DetailRecordComplete(domain: string, rows: seq<NestedRow>, k: nat)
    requires k < |rows| && NoSentinelBefore(rows, k + 1) && Qualifies(rows[k])
    ensures LineRecord(domain, rows[k]) in DetailRecords(domain, rows)
  {
    if k == 0 {
      assert DetailRecords(domain, rows) == [LineRecord(domain, rows[0])] + DetailRecords(domain, rows[1..]);
    } else {
      assert rows[1..][k - 1] == rows[k];
      assert NoSentinelBefore(rows[1..], k) by {
        forall j | 0 <= j < k ensures !IsSentinel(rows[1..][j]) {
          assert rows[1..][j] == rows[j + 1];
        }
      }
      DetailRecordComplete(domain, rows[1..], k - 1);
    }
  }

  /** How many records in `rs` are degraded ones, with an empty seller. */
  function FallbackCount(rs: seq<Record>): (n: nat)
    ensures n <= |rs|
  {
    if rs == [] then 0 else (if rs[0].seller == "" then 1 else 0) + FallbackCount(rs[1..])
  }

  lemma {:induction false} FallbackCountAppend(a: seq<Record>, b: seq<Record>)
    ensures FallbackCount(a + b) == FallbackCount(a) + FallbackCount(b)
  {
    if a != [] {
      assert (a + b)[0] == a[0] && (a + b)[1..] == a[1..] + b;
      FallbackCountAppend(a[1..], b);
    } else {
      assert a + b == b;
    }
  }

  lemma {:induction false} FallbackCountReal(domain: string, rs: seq<Record>)
    requires forall k :: 0 <= k < |rs| ==> IsRealRecord(domain, rs[k])
    ensures FallbackCount(rs) == 0
  {
    if rs != [] {
      FallbackCountReal(domain, rs[1..]);
    }
  }

  /**
   A failed overlay adds exactly one fallback record, after the real records
   already read, which are kept; an overlay that completes adds no fallback,
   and adds nothing at all when no nested row qualifies before the sentinel.
   */
  lemma {:induction false} OverlayFallback(domain: string, overlay: Overlay)
    ensures var rs := OverlayRecords(domain, overlay);
            FallbackCount(rs) == (if overlay.interrupted then 1 else 0) &&
            rs[..|DetailRecords(domain, overlay.rows)|] == DetailRecords(domain, overlay.rows) &&
            (overlay.interrupted ==> |rs| >= 1 && rs[|rs| - 1] == Fallback(domain))
    ensures !overlay.interrupted ==>
            (OverlayRecords(domain, overlay) == [] <==>
             forall k :: 0 <= k < |overlay.rows| && NoSentinelBefore(overlay.rows, k + 1) ==>
                           !Qualifies(overlay.rows[k]))
  {
    var found := DetailRecords(domain, overlay.rows);
    var tail := if overlay.interrupted then [Fallback(domain)] else [];
    FallbackCountReal(domain, found);
    FallbackCountAppend(found, tail);
    assert FallbackCount(tail) == (if overlay.interrupted then 1 else 0);
    if !overlay.interrupted {
      if found != [] {
        DetailRecordOrigin(domain, overlay.rows, found[0]);
      } else {
        forall k | 0 <= k < |overlay.rows| && NoSentinelBefore(overlay.rows, k + 1)
          ensures !Qualifies(overlay.rows[k])
        {
          if Qualifies(overlay.rows[k]) {
            DetailRecordComplete(domain, overlay.rows, k);
          }
        }
      }
    }
  }
}
