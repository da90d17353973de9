/**
 * The page-count probe of JobScraper.get_total_pages, as a specification. The probe answers
 * for pages 1, 2, 3, ... are a script; the method that walks them is JobScraper.GetTotalPages.
 */
module Pagination {

  /**
   * What the probe of one search page came back with: a failed fetch, or a page with the
   * "Zadaná stránka už není dostupná" marker, its number of `article.SearchResultCard` cards,
   * a `div.SearchNoResults` element, and a `div.SearchResultList` holding no `article`.
   */
  datatype Probe =
    | FetchFailed
    | Fetched(notAvailable: bool, cardCount: nat, noResults: bool, resultsContainerEmpty: bool)

  /** The answer for page `page` (counted from 1); past the end of the script every fetch fails. */
  function ProbeAt(probes: seq<Probe>, page: nat): Probe
    requires page >= 1
  {
    if page <= |probes| then probes[page - 1] else FetchFailed
  }

  /** The walk ends at this page. The not-available marker is looked at before the cards. */
  predicate StopsAt(p: Probe) {
    match p
    case FetchFailed => true
    case Fetched(notAvailable, cardCount, noResults, resultsContainerEmpty) =>
      notAvailable || (cardCount == 0 && (noResults || resultsContainerEmpty))
  }

  /** The page count reported when the walk ends at `page`: one less when the page is gone. */
  function StopValue(p: Probe, page: nat): nat
    requires page >= 1
  {
    if p.Fetched? && p.notAvailable then page - 1 else page
  }

  /** The count the walk reports when it is at `page`. */
  function TotalPagesFrom(probes: seq<Probe>, page: nat): nat
    requires page >= 1
    decreases |probes| + 1 - page
  {
    var p := ProbeAt(probes, page);
    if StopsAt(p) then StopValue(p, page) else TotalPagesFrom(probes, page + 1)
  }

  /** get_total_pages: the walk started at page 1. */
  function TotalPages(probes: seq<Probe>): nat {
    TotalPagesFrom(probes, 1)
  }

  /** Page `k` is the first page at which the walk stops. */
  ghost predicate FirstStop(probes: seq<Probe>, k: nat) {
    && k >= 1
    && StopsAt(ProbeAt(probes, k))
    && forall j :: 1 <= j < k ==> !StopsAt(ProbeAt(probes, j))
  }

  /** The first page at which the walk stops decides the count, and nothing after it matters. */
  lemma FirstStopDecides(probes: seq<Probe>, k: nat)
    requires FirstStop(probes, k)
    ensures TotalPages(probes) == StopValue(ProbeAt(probes, k), k)
  {
    FirstStopDecidesFrom(probes, 1, k);
  }

  lemma {:induction false} FirstStopDecidesFrom(probes: seq<Probe>, page: nat, k: nat)
    requires 1 <= page <= k
    requires StopsAt(ProbeAt(probes, k))
    requires forall j :: page <= j < k ==> !StopsAt(ProbeAt(probes, j))
    ensures TotalPagesFrom(probes, page) == StopValue(ProbeAt(probes, k), k)
    decreases k - page
  {
    if page < k {
      FirstStopDecidesFrom(probes, page + 1, k);
    }
  }

  /** Some page within one past the script is the first stop: the walk always ends. */
  lemma FirstStopExists(probes: seq<Probe>)
    ensures exists k: nat :: k <= |probes| + 1 && FirstStop(probes, k)
  {
    var k := 1;
    while !StopsAt(ProbeAt(probes, k))
      invariant 1 <= k <= |probes| + 1
      invariant forall j :: 1 <= j < k ==> !StopsAt(ProbeAt(probes, j))
      decreases |probes| + 1 - k
    {
      k := k + 1;
    }
    assert FirstStop(probes, k);
  }

  /** The count is never more than one past the pages the script answers for. */
  lemma TotalPagesBound(probes: seq<Probe>)
    ensures TotalPages(probes) <= |probes| + 1
  {
    FirstStopExists(probes);
    var k: nat :| k <= |probes| + 1 && FirstStop(probes, k);
    FirstStopDecides(probes, k);
  }

  /** A page that has no cards but neither marker does not end the walk. */
  lemma EmptyPageWithoutMarkerContinues(probes: seq<Probe>, page: nat)
    requires page >= 1
    requires ProbeAt(probes, page) == Fetched(false, 0, false, false)
    ensures TotalPagesFrom(probes, page) == TotalPagesFrom(probes, page + 1)
  {
  }
}
