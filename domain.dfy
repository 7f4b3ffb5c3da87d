/**
 The domain heuristic applied to one summary row: among the cells at
 positions 1, 2 and 3 (the slice `cells[1:4]`), the first whose stripped text
 is non-empty, contains a `.` and is a single whitespace-free token.
 */
module Domain {
  import opened Wrappers
  import opened Text

  /** The test of one stripped cell text: non-empty, has a dot, splits into one token. */
  predicate IsDomainText(txt: string) {
    txt != [] && '.' in txt && |Split(txt)| == 1
  }

  /** One past the last cell the scan looks at: the slice `cells[1:4]` clamps to the cells there are. */
  const WindowEnd: nat := 4

  /**
   The scan of `cells[1:4]` from cell `i` on: the stripped text of the first
   cell that passes the test, if any.
   */
  function DomainFrom(cells: seq<string>, i: nat): (d: Option<string>)
    requires i >= 1
    ensures d.Some? ==> IsDomainText(d.value)
    decreases WindowEnd - i
  {
    if i >= WindowEnd || i >= |cells| then None
    else if IsDomainText(Strip(cells[i])) then Some(Strip(cells[i]))
    else DomainFrom(cells, i + 1)
  }

  /** The domain parsed from a summary row's cell texts, if any. */
  function DomainOf(cells: seq<string>): Option<string> {
    DomainFrom(cells, 1)
  }

  /** A stripped cell passes the test exactly when it has a dot and no whitespace. */
  lemma {:induction false} DomainTextIff(cell: string)
    ensures IsDomainText(Strip(cell)) <==> '.' in Strip(cell) && NoSpace(Strip(cell))
  {
    StripSpec(cell);
    SingleTokenIff(Strip(cell));
  }

  /** Cell `i` passes the test and none of cells 1 to `i - 1` does. */
  predicate IsFirstDomainCell(cells: seq<string>, i: int)
    requires 0 <= i < |cells|
  {
    IsDomainText(Strip(cells[i])) && forall j :: 1 <= j < i ==> !IsDomainText(Strip(cells[j]))
  }

  /** The scan from `i` finds nothing exactly when no cell from `i` to 3 passes. */
  lemma {:induction false} DomainFromNone(cells: seq<string>, i: nat)
    requires i >= 1
    ensures DomainFrom(cells, i).None? <==>
            forall j :: i <= j < WindowEnd && j < |cells| ==> !IsDomainText(Strip(cells[j]))
    decreases WindowEnd - i
  {
    if i < WindowEnd && i < |cells| && !IsDomainText(Strip(cells[i])) {
      DomainFromNone(cells, i + 1);
    }
  }

  /** The scan from `i` returns cell `k` exactly when `k` is the first cell from `i` on that passes. */
  lemma {:induction false} DomainFromAt(cells: seq<string>, i: nat, k: nat)
    requires 1 <= i <= k < WindowEnd && k < |cells|
    requires IsDomainText(Strip(cells[k]))
    requires forall j :: i <= j < k ==> !IsDomainText(Strip(cells[j]))
    ensures DomainFrom(cells, i) == Some(Strip(cells[k]))
    decreases k - i
  {
    if i < k {
      DomainFromAt(cells, i + 1, k);
    }
  }

  /** When the scan from `i` finds a domain, it is the text of the first cell from `i` on that passes. */
  lemma {:induction false} DomainFromSome(cells: seq<string>, i: nat)
    requires i >= 1 && DomainFrom(cells, i).Some?
    ensures exists k :: i <= k < WindowEnd && k < |cells| && IsDomainText(Strip(cells[k])) &&
                        (forall j :: i <= j < k ==> !IsDomainText(Strip(cells[j]))) &&
                        DomainFrom(cells, i).value == Strip(cells[k])
    decreases WindowEnd - i
  {
    if !IsDomainText(Strip(cells[i])) {
      DomainFromSome(cells, i + 1);
    }
  }

  /**
   A row has no domain exactly when none of cells 1 to 3 passes the test;
   in particular a row with fewer than two cells never has one.
   */
  lemma {:induction false} DomainOfNone(cells: seq<string>)
    ensures DomainOf(cells).None? <==>
            forall i :: 1 <= i < WindowEnd && i < |cells| ==> !IsDomainText(Strip(cells[i]))
    ensures |cells| < 2 ==> DomainOf(cells).None?
  {
    DomainFromNone(cells, 1);
  }

  /**
   A row's domain is the stripped text of a cell among 1 to 3 that passes the
   test with no earlier cell in that range passing.
   */
  lemma {:induction false} DomainOfSome(cells: seq<string>)
    requires DomainOf(cells).Some?
    ensures exists i :: 1 <= i < WindowEnd && i < |cells| && IsFirstDomainCell(cells, i) &&
                        DomainOf(cells).value == Strip(cells[i])
  {
    DomainFromSome(cells, 1);
    var k :| 1 <= k < WindowEnd && k < |cells| && IsDomainText(Strip(cells[k])) &&
             (forall j :: 1 <= j < k ==> !IsDomainText(Strip(cells[j]))) &&
             DomainFrom(cells, 1).value == Strip(cells[k]);
    assert IsFirstDomainCell(cells, k);
  }

  /** The first cell among 1 to 3 that passes the test is the row's domain. */
  lemma {:induction false} DomainOfFirstCell(cells: seq<string>, i: nat)
    requires 1 <= i < WindowEnd && i < |cells| && IsFirstDomainCell(cells, i)
    ensures DomainOf(cells) == Some(Strip(cells[i]))
  {
    DomainFromAt(cells, 1, i);
  }

  /** How many leading cells the scan can see: `cells[:4]`. */
  function Visible(cells: seq<string>): nat {
    if |cells| < WindowEnd then |cells| else WindowEnd
  }

  /**
   Cell 0 and cells past index 3 are never looked at: two rows that have the
   same cells 1 to 3 (as far as they exist) get the same domain.
   */
  lemma {:induction false} DomainOfWindowOnly(a: seq<string>, b: seq<string>)
    requires Visible(a) == Visible(b)
    requires forall i :: 1 <= i < Visible(a) ==> a[i] == b[i]
    ensures DomainOf(a) == DomainOf(b)
  {
    WindowOnlyFrom(a, b, 1);
  }

  lemma {:induction false} WindowOnlyFrom(a: seq<string>, b: seq<string>, i: nat)
    requires i >= 1
    requires Visible(a) == Visible(b)
    requires forall j :: 1 <= j < Visible(a) ==> a[j] == b[j]
    ensures DomainFrom(a, i) == DomainFrom(b, i)
    decreases WindowEnd - i
  {
    if i < WindowEnd {
      WindowOnlyFrom(a, b, i + 1);
    }
  }
}
