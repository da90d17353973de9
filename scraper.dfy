/**
 * JobScraper: the page-count probe, the page-by-page scrape that appends to `jobs`, the
 * markdown text and the Google Docs replace batch, and main(). Every network answer comes from
 * a Network value: the probe answers, whether the count page was fetched, the answers for the
 * search pages the scrape loop asks for, and the detail-page answer for each URL.
 */
module Scraper {
  import opened Wrappers
  import opened Listings
  import opened Pagination
  import opened Rendering
  import opened DocsSync

  /** A search page requested by the scrape loop: failed, or fetched with these cards. */
  datatype SearchFetch = SearchFailed | SearchPage(cards: seq<Card>)

  /** Every answer the network gives during one run. */
  datatype Network = Network(
    probes: seq<Probe>,
    initialPageFetched: bool,
    pages: seq<SearchFetch>,
    detail: string -> Option<DetailPage>)

  /** The answer for search page `page` (from 1); past the script every fetch fails. */
  function PageAt(pages: seq<SearchFetch>, page: nat): SearchFetch
    requires page >= 1
  {
    if page <= |pages| then pages[page - 1] else SearchFailed
  }

  /** A page the scrape loop goes on after: fetched, with at least one card. */
  predicate Yields(f: SearchFetch) {
    f.SearchPage? && f.cards != []
  }

  /**
   * How many pages the scrape loop works through when there are `total` pages: the leading
   * pages that yield cards, never more than `total`; the page after them failed or was empty.
   */
  function PagesScraped(pages: seq<SearchFetch>, total: nat): (n: nat)
    ensures n <= total && n <= |pages|
    ensures forall j :: 0 <= j < n ==> Yields(pages[j])
    ensures n < total ==> n == |pages| || !Yields(pages[n])
  {
    if total == 0 || pages == [] || !Yields(pages[0]) then 0
    else 1 + PagesScraped(pages[1..], total - 1)
  }

  /** The first `n` pages all yield cards. */
  ghost predicate LeadingPagesYield(pages: seq<SearchFetch>, n: nat) {
    n <= |pages| && forall j :: 0 <= j < n ==> Yields(pages[j])
  }

  lemma LeadingPagesYieldExtend(pages: seq<SearchFetch>, n: nat)
    requires LeadingPagesYield(pages, n) && n < |pages| && Yields(pages[n])
    ensures LeadingPagesYield(pages, n + 1)
  {
  }

  /** The three facts PagesScraped ensures pin it down: any count that has them is that count. */
  lemma {:induction false} PagesScrapedUnique(pages: seq<SearchFetch>, total: nat, n: nat)
    requires n <= total && n <= |pages|
    requires forall j :: 0 <= j < n ==> Yields(pages[j])
    requires n < total ==> n == |pages| || !Yields(pages[n])
    ensures PagesScraped(pages, total) == n
  {
    if n > 0 {
      assert Yields(pages[0]);
      forall j | 0 <= j < n - 1 ensures Yields(pages[1..][j]) {
        assert pages[1..][j] == pages[j + 1];
      }
      PagesScrapedUnique(pages[1..], total - 1, n - 1);
    }
  }

  /** The records a page contributes, `extract` applied to its cards: none for a failed fetch. */
  function JobsOn(f: SearchFetch, extract: Card -> Option<Job>): seq<Job> {
    match f
    case SearchFailed => []
    case SearchPage(cards) => Collect(cards, extract)
  }

  /** The records of a run of pages, page after page. */
  function JobsOfPages(pages: seq<SearchFetch>, extract: Card -> Option<Job>): seq<Job> {
    if pages == [] then []
    else JobsOfPages(pages[..|pages| - 1], extract) + JobsOn(pages[|pages| - 1], extract)
  }

  /** The records one scrape_jobs call appends. */
  function ScrapedJobs(net: Network): seq<Job> {
    if !net.initialPageFetched then []
    else JobsOfPages(net.pages[..PagesScraped(net.pages, TotalPages(net.probes))], Extractor(net.detail))
  }

  /** One more page adds that page's records at the end. */
  lemma JobsOfPagesSnoc(pages: seq<SearchFetch>, n: nat, extract: Card -> Option<Job>)
    requires n < |pages|
    ensures JobsOfPages(pages[..n + 1], extract) == JobsOfPages(pages[..n], extract) + JobsOn(pages[n], extract)
  {
    assert pages[..n + 1][..n] == pages[..n];
  }

  /** The cards of a run of pages, page after page, in the order each page lists them. */
  function CardsOf(pages: seq<SearchFetch>): seq<Card> {
    if pages == [] then []
    else CardsOf(pages[..|pages| - 1]) + (match pages[|pages| - 1] case SearchFailed => [] case SearchPage(cards) => cards)
  }

  /**
   * Page by page is the same as card by card: the records of a run of pages are the records of
   * all their cards taken in order.
   */
  lemma {:induction false} JobsOfPagesInCardOrder(pages: seq<SearchFetch>, extract: Card -> Option<Job>)
    ensures JobsOfPages(pages, extract) == Collect(CardsOf(pages), extract)
    decreases |pages|
  {
    if pages != [] {
      var front := pages[..|pages| - 1];
      JobsOfPagesInCardOrder(front, extract);
      match pages[|pages| - 1] {
        case SearchFailed =>
          assert CardsOf(pages) == CardsOf(front) + [];
          assert CardsOf(front) + [] == CardsOf(front);
        case SearchPage(cards) =>
          CollectAppend(CardsOf(front), cards, extract);
      }
    }
  }

  /** Records of any run of pages are well formed. */
  lemma {:induction false} JobsOfPagesWellFormed(pages: seq<SearchFetch>, fetch: string -> Option<DetailPage>)
    ensures AllWellFormed(JobsOfPages(pages, Extractor(fetch)))
    decreases |pages|
  {
    if pages != [] {
      var extract := Extractor(fetch);
      var front, last := JobsOfPages(pages[..|pages| - 1], extract), JobsOn(pages[|pages| - 1], extract);
      JobsOfPagesWellFormed(pages[..|pages| - 1], fetch);
      match pages[|pages| - 1] {
        case SearchFailed =>
        case SearchPage(cards) => ExtractAllWellFormed(cards, fetch);
      }
      AllWellFormedAppend(front, last);
    }
  }

  /**
   * Only the first `total` search pages and the first stop among them matter: two networks
   * that agree on those pages agree on the records.
   */
  lemma ScrapeStopsAtFirstBadPage(net: Network, other: Network)
    requires other.probes == net.probes && other.initialPageFetched == net.initialPageFetched
    requires other.detail == net.detail
    requires var n := PagesScraped(net.pages, TotalPages(net.probes));
      && |other.pages| >= n && other.pages[..n] == net.pages[..n]
      && (n < TotalPages(net.probes) && n < |net.pages| ==> n < |other.pages| && other.pages[n] == net.pages[n])
      && (n < TotalPages(net.probes) && n == |net.pages| ==> n == |other.pages| || !Yields(other.pages[n]))
    ensures ScrapedJobs(other) == ScrapedJobs(net)
  {
    var total := TotalPages(net.probes);
    var n := PagesScraped(net.pages, total);
    forall j | 0 <= j < n ensures Yields(other.pages[j]) {
      assert other.pages[j] == other.pages[..n][j];
    }
    PagesScrapedUnique(other.pages, total, n);
  }

  class JobScraper {
    /** `self.jobs`: the records collected so far, in the order they were found. */
    var jobs: seq<Job>

    /** Every collected record has a URL that starts with "http" and a clean description. */
    ghost predicate Valid()
      reads this
    {
      AllWellFormed(jobs)
    }

    /** The scraper starts with no records (the Docs client set-up is not modelled). */
    constructor ()
      ensures jobs == [] && Valid()
    {
      jobs := [];
    }

    /** get_total_pages: probes pages 1, 2, ... until one of its three stop conditions holds. */
    method GetTotalPages(probes: seq<Probe>) returns (totalPages: nat)
      ensures totalPages == TotalPages(probes)
    {
      var page := 1;
      while true
        invariant 1 <= page <= |probes| + 1
        invariant TotalPagesFrom(probes, page) == TotalPages(probes)
        decreases |probes| + 1 - page
      {
        var probe := ProbeAt(probes, page);
        if probe.FetchFailed? {
          break;
        }
        if probe.notAvailable {
          page := page - 1;
          break;
        }
        if probe.cardCount == 0 {
          if probe.noResults {
            break;
          }
          if probe.resultsContainerEmpty {
            break;
          }
        }
        page := page + 1;
      }
      totalPages := page;
    }

    /**
     * scrape_jobs. Returns the two figures of its closing summary: the number of records found
     * and the number of pages worked through.
     */
    method ScrapeJobs(net: Network) returns (found: nat, pagesDone: nat)
      modifies this
      ensures jobs == old(jobs) + ScrapedJobs(net)
      ensures found == |ScrapedJobs(net)|
      ensures pagesDone == if net.initialPageFetched then PagesScraped(net.pages, TotalPages(net.probes)) else 0
      ensures old(Valid()) ==> Valid()
    {
      found, pagesDone := 0, 0;
      var totalPages := GetTotalPages(net.probes);
      if !net.initialPageFetched {
        return;
      }
      var pages, extract := net.pages, Extractor(net.detail);
      var page := 1;
      while page <= totalPages
        invariant 1 <= page <= totalPages + 1
        invariant LeadingPagesYield(pages, page - 1)
        invariant jobs == old(jobs) + JobsOfPages(pages[..page - 1], extract)
        invariant found == |jobs| - |old(jobs)|
      {
        var fetched := PageAt(pages, page);
        if fetched.SearchFailed? {
          assert page - 1 == |pages| || !Yields(pages[page - 1]);
          break;
        }
        var jobItems := fetched.cards;
        if jobItems == [] {
          assert !Yields(pages[page - 1]);
          break;
        }
        assert page <= |pages| && pages[page - 1] == fetched;
        LeadingPagesYieldExtend(pages, page - 1);
        ghost var done, more := JobsOfPages(pages[..page - 1], extract), Collect(jobItems, extract);
        JobsOfPagesSnoc(pages, page - 1, extract);
        assert JobsOfPages(pages[..page], extract) == done + more;
        ghost var before := jobs;
        var added := CollectPage(jobItems, extract);
        found := found + added;
        assert jobs == before + more && before == old(jobs) + done;
        AppendAssociative(old(jobs), done, more);
        page := page + 1;
      }
      pagesDone := page - 1;
      PagesScrapedUnique(pages, totalPages, pagesDone);
      JobsOfPagesWellFormed(pages[..pagesDone], net.detail);
      if old(Valid()) {
        AllWellFormedAppend(old(jobs), ScrapedJobs(net));
      }
    }

    /**
     * The card loop of scrape_jobs for one page: `extract` (extract_job_details) is applied to
     * each card in order and each record it returns is appended to `jobs`; returns how many were
     * appended.
     */
    method CollectPage(jobItems: seq<Card>, extract: Card -> Option<Job>) returns (added: nat)
      modifies this
      ensures jobs == old(jobs) + Collect(jobItems, extract)
      ensures added == |Collect(jobItems, extract)|
    {
      added := 0;
      var i := 0;
      while i < |jobItems|
        invariant 0 <= i <= |jobItems|
        invariant jobs == old(jobs) + Collect(jobItems[..i], extract)
        invariant added == |jobs| - |old(jobs)|
      {
        var jobDetails := extract(jobItems[i]);
        ghost var done := Collect(jobItems[..i], extract);
        CollectSnoc(jobItems[..i], jobItems[i], extract);
        assert jobItems[..i + 1] == jobItems[..i] + [jobItems[i]];
        assert Collect(jobItems[..i + 1], extract) == done + Listed(jobDetails);
        ghost var before := jobs;
        if jobDetails.Some? {
          jobs := jobs + [jobDetails.value];
          added := added + 1;
        }
        assert jobs == before + Listed(jobDetails);
        AppendAssociative(old(jobs), done, Listed(jobDetails));
        i := i + 1;
      }
      assert jobItems[..i] == jobItems;
    }

    /** create_markdown_content, with the formatted clock reading passed in. */
    method CreateMarkdownContent(now: string) returns (content: string)
      ensures content == Render(jobs, now)
    {
      content := Header(now, |jobs|);
      for i := 0 to |jobs|
        invariant content == Header(now, |jobs|) + Sections(jobs[..i])
      {
        content := content + Section(jobs[i]);
        SectionsAppend(jobs[..i], [jobs[i]]);
        assert jobs[..i + 1] == jobs[..i] + [jobs[i]];
      }
      assert jobs[..|jobs|] == jobs;
    }

    /**
     * update_google_doc. `docId` is the GOOGLE_DOC_ID setting; `document` is the body content of
     * the document read through the API, or None when that read failed.
     */
    method UpdateGoogleDoc(docId: Option<string>, now: string, document: Option<seq<StructuralElement>>)
      returns (outcome: SyncOutcome)
      ensures outcome.MissingDocumentId? <==> docId.None? || docId.value == []
      ensures outcome.DocumentUnreadable? <==> docId.Some? && docId.value != [] && (document.None? || document.value == [])
      ensures outcome.BatchUpdate? ==>
        outcome == BatchUpdate(docId.value, ReplaceRequests(EndIndex(document.value), Render(jobs, now)))
    {
      if docId.None? || docId.value == [] {
        return MissingDocumentId;
      }
      var content := CreateMarkdownContent(now);
      if document.None? || document.value == [] {
        return DocumentUnreadable;
      }
      var endIndex := EndIndex(document.value);
      var requests := [DeleteContentRange(1, endIndex - 1)];
      requests := requests + [InsertText(1, content)];
      outcome := BatchUpdate(docId.value, requests);
    }
  }

  /** main(): a fresh scraper scrapes once, then publishes what it found. */
  method Run(net: Network, docId: Option<string>, now: string, document: Option<seq<StructuralElement>>)
    returns (outcome: SyncOutcome)
    ensures outcome.MissingDocumentId? <==> docId.None? || docId.value == []
    ensures outcome.DocumentUnreadable? <==> docId.Some? && docId.value != [] && (document.None? || document.value == [])
    ensures outcome.BatchUpdate? ==>
      outcome == BatchUpdate(docId.value, ReplaceRequests(EndIndex(document.value), Render(ScrapedJobs(net), now)))
  {
    var scraper := new JobScraper();
    var found, pagesDone := scraper.ScrapeJobs(net);
    assert scraper.jobs == ScrapedJobs(net);
    outcome := scraper.UpdateGoogleDoc(docId, now, document);
  }
}
