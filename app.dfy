/**
 What happens when the start button is pressed: the URL is checked first, and
 only an admitted URL leads to a run of the scraper, whose outcome is then
 shown either as an error or as the collected records.
 */
module App {
  import opened Wrappers
  import opened Detail
  import opened Pipeline
  import opened Scraper

  /** Python's `s.startswith(prefix)`. */
  predicate StartsWith(s: string, prefix: string) {
    |prefix| <= |s| && s[..|prefix|] == prefix
  }

  /**
   The URL check: a non-empty URL that starts with `http`. Since only the
   four letters are tested, any text after them is admitted.
   */
  function AcceptsUrl(url: string): (ok: bool)
    ensures ok <==> exists rest :: url == "http" + rest
  {
    if url != "" && StartsWith(url, "http") then
      assert url == "http" + url[4..];
      true
    else
      false
  }

  /** What the page shows once the button was pressed. */
  datatype Screen = InvalidUrl | ShowError(message: string) | ShowResults(records: seq<Record>)

  /**
   The start button: a rejected URL shows the invalid-URL message and the
   scraper never runs; otherwise the run's error is shown if it has one, and
   its records if not.
   */
  method OnStart(url: string, page: Page) returns (screen: Screen, attempted: bool)
    ensures attempted <==> AcceptsUrl(url)
    ensures screen.InvalidUrl? <==> !AcceptsUrl(url)
    ensures AcceptsUrl(url) && RunResult(page).error.Some? ==>
            screen == ShowError(RunResult(page).error.value)
    ensures AcceptsUrl(url) && RunResult(page).error.None? ==>
            screen == ShowResults(Collect(page.rows)) && Collect(page.rows) != []
  {
    if url == "" || !StartsWith(url, "http") {
      return InvalidUrl, false;
    }
    attempted := true;
    var result, _ := Scrape(page);
    RunResultExclusive(page);
    if result.error.Some? && result.error.value != "" {
      screen := ShowError(result.error.value);
    } else {
      screen := ShowResults(result.data.value);
    }
  }
}
