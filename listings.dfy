/**
 * One search-result card turned into a job record: JobsCzScraper.extract_job_text and
 * JobScraper.extract_job_details. The page markup is already searched: a card carries the
 * elements the source looks up (title heading, its primary link, company span, locality item)
 * as optional fields holding their stripped text, and a detail page carries the visible text of
 * its `data-jobad=body` container, if it has one.
 */
module Listings {
  import opened Wrappers
  import opened TextCleaning

  /** The site origin that relative detail links are resolved against. */
  const SiteOrigin: string := "https://www.jobs.cz"

  /** Company when the card has no company element. */
  const DefaultCompany: string := ""

  /** Location when the card has no locality element. */
  const DefaultLocation: string := "Remote"

  /** The `a.link-primary` element inside the title; `href` is None when the attribute is absent. */
  datatype Link = Link(href: Option<string>)

  /** The `h2.SearchResultCard__title` element: its stripped text and the link inside it. */
  datatype TitleElement = TitleElement(text: string, link: Option<Link>)

  /** A search-result card, with the elements that were found on it. */
  datatype Card = Card(title: Option<TitleElement>, company: Option<string>, locality: Option<string>)

  /**
   * A fetched detail page. `body` is the text of the `data-jobad=body` container once its
   * script, style, nav, header and footer elements are removed (one line per text node), or
   * None when the page has no such container.
   */
  datatype DetailPage = DetailPage(body: Option<string>)

  /** The record kept for one listing: the dictionary built at scraper.py:124-130. */
  datatype Job = Job(title: string, company: string, location: string, url: string, text: string)

  predicate StartsWith(s: string, prefix: string) {
    |prefix| <= |s| && s[..|prefix|] == prefix
  }

  /** What every extracted record satisfies: a URL that starts with "http" and an already-clean description. */
  predicate WellFormed(job: Job) {
    StartsWith(job.url, "http") && CleanText(job.text) == job.text
  }

  /** Every record of the list is well formed. */
  ghost predicate AllWellFormed(jobs: seq<Job>) {
    forall i :: 0 <= i < |jobs| ==> WellFormed(jobs[i])
  }

  lemma AllWellFormedAppend(a: seq<Job>, b: seq<Job>)
    requires AllWellFormed(a) && AllWellFormed(b)
    ensures AllWellFormed(a + b)
  {
    forall i | 0 <= i < |a + b| ensures WellFormed((a + b)[i]) {
      if i < |a| { assert (a + b)[i] == a[i]; } else { assert (a + b)[i] == b[i - |a|]; }
    }
  }

  /** The detail URL for a link target: kept when it starts with "http", else put after the origin. */
  function AbsoluteUrl(href: string): (url: string)
    ensures StartsWith(url, "http")
    ensures StartsWith(href, "http") ==> url == href
    ensures !StartsWith(href, "http") ==> url == SiteOrigin + href
    ensures |href| <= |url| && url[|url| - |href|..] == href
  {
    if StartsWith(href, "http") then href else SiteOrigin + href
  }

  /** Resolving an already resolved URL changes nothing. */
  lemma AbsoluteUrlIdempotent(href: string)
    ensures AbsoluteUrl(AbsoluteUrl(href)) == AbsoluteUrl(href)
  {
  }

  /** JobsCzScraper.extract_job_text: the container's text, cleaned, or "" without a container. */
  function ExtractJobText(page: DetailPage): (text: string)
    ensures page.body.None? ==> text == []
    ensures page.body.Some? ==> text == CleanText(page.body.value)
  {
    match page.body
    case None => []
    case Some(raw) => CleanText(raw)
  }

  /** The extracted text is already clean: cleaning it again changes nothing. */
  lemma ExtractJobTextClean(page: DetailPage)
    ensures CleanText(ExtractJobText(page)) == ExtractJobText(page)
  {
    match page.body {
      case None => CleanTextEmpty([]);
      case Some(raw) => CleanTextIdempotent(raw);
    }
  }

  /** The title text and resolved URL of a card, or None when it has no title, link or href. */
  function Locate(card: Card): (r: Option<(string, string)>)
    ensures r.None? <==> card.title.None? || card.title.value.link.None? || card.title.value.link.value.href.None?
    ensures r.Some? ==> r.value.0 == card.title.value.text && r.value.1 == AbsoluteUrl(card.title.value.link.value.href.value)
  {
    match card.title
    case None => None
    case Some(title) =>
      match title.link
      case None => None
      case Some(link) =>
        match link.href
        case None => None
        case Some(href) => Some((title.text, AbsoluteUrl(href)))
  }

  /**
   * JobScraper.extract_job_details. `fetch` answers the detail-page request for a URL
   * (None for a failed request); it is consulted only once the card has a title and a link target.
   */
  function ExtractJobDetails(card: Card, fetch: string -> Option<DetailPage>): (job: Option<Job>)
    ensures job.None? <==> Locate(card).None?
  {
    match Locate(card)
    case None => None
    case Some((title, url)) =>
      var company := card.company.GetOr(DefaultCompany);
      var location := card.locality.GetOr(DefaultLocation);
      var text := match fetch(url) case None => [] case Some(page) => ExtractJobText(page);
      Some(Job(title, company, location, url, text))
  }

  /** An extracted record has an "http" URL and a description that cleaning leaves as it is. */
  lemma ExtractJobDetailsWellFormed(card: Card, fetch: string -> Option<DetailPage>)
    requires Locate(card).Some?
    ensures WellFormed(ExtractJobDetails(card, fetch).value)
  {
    var url := Locate(card).value.1;
    match fetch(url) {
      case None => CleanTextEmpty([]);
      case Some(page) => ExtractJobTextClean(page);
    }
  }

  /** The fields of an extracted record, with the defaults for missing elements. */
  lemma ExtractedFields(card: Card, fetch: string -> Option<DetailPage>)
    requires Locate(card).Some?
    ensures var job := ExtractJobDetails(card, fetch).value;
      && job.title == card.title.value.text
      && job.url == AbsoluteUrl(card.title.value.link.value.href.value)
      && (card.company.None? ==> job.company == "")
      && (card.company.Some? ==> job.company == card.company.value)
      && (card.locality.None? ==> job.location == "Remote")
      && (card.locality.Some? ==> job.location == card.locality.value)
      && (fetch(job.url).None? ==> job.text == "")
      && (fetch(job.url).Some? && fetch(job.url).value.body.None? ==> job.text == "")
      && (fetch(job.url).Some? && fetch(job.url).value.body.Some? ==> job.text == CleanText(fetch(job.url).value.body.value))
  {
  }

  /**
   * The record depends on the network only through the answer for its own URL, and a dropped
   * card does not depend on it at all: no detail request is made for it.
   */
  lemma ExtractionFetchesOnlyOwnUrl(card: Card, f: string -> Option<DetailPage>, g: string -> Option<DetailPage>)
    requires Locate(card).None? || f(Locate(card).value.1) == g(Locate(card).value.1)
    ensures ExtractJobDetails(card, f) == ExtractJobDetails(card, g)
  {
  }

  /** The records a single card contributes: its record, or none when it was dropped. */
  function Listed(job: Option<Job>): seq<Job> {
    if job.Some? then [job.value] else []
  }

  /**
   * The card loop of scrape_jobs as a value: `extract` applied to each card in order, the
   * records it returns kept, the cards it drops left out.
   */
  function Collect(cards: seq<Card>, extract: Card -> Option<Job>): (jobs: seq<Job>)
    ensures |jobs| <= |cards|
    ensures (forall i :: 0 <= i < |cards| ==> extract(cards[i]).Some?) ==> |jobs| == |cards|
  {
    if cards == [] then [] else Listed(extract(cards[0])) + Collect(cards[1..], extract)
  }

  /** Collecting two runs of cards one after the other gives the two record lists one after the other. */
  lemma {:induction false} CollectAppend(a: seq<Card>, b: seq<Card>, extract: Card -> Option<Job>)
    ensures Collect(a + b, extract) == Collect(a, extract) + Collect(b, extract)
  {
    if a != [] {
      CollectAppend(a[1..], b, extract);
      assert (a + b)[1..] == a[1..] + b;
    } else {
      assert a + b == b;
    }
  }

  /** One more card adds its record, if any, at the end. */
  lemma CollectSnoc(cards: seq<Card>, card: Card, extract: Card -> Option<Job>)
    ensures Collect(cards + [card], extract) == Collect(cards, extract) + Listed(extract(card))
  {
    CollectAppend(cards, [card], extract);
    assert [card][1..] == [];
  }

  /** extract_job_details with the detail fetches of one network. */
  function Extractor(fetch: string -> Option<DetailPage>): Card -> Option<Job> {
    card => ExtractJobDetails(card, fetch)
  }

  /** The records of the cards of one page, in card order, dropped cards left out. */
  function ExtractAll(cards: seq<Card>, fetch: string -> Option<DetailPage>): seq<Job> {
    Collect(cards, Extractor(fetch))
  }

  /** A page whose every card has a title link yields one record per card. */
  lemma ExtractAllKeepsLocated(cards: seq<Card>, fetch: string -> Option<DetailPage>)
    requires forall i :: 0 <= i < |cards| ==> Locate(cards[i]).Some?
    ensures |ExtractAll(cards, fetch)| == |cards|
  {
    forall i | 0 <= i < |cards| ensures Extractor(fetch)(cards[i]).Some? {
      assert Extractor(fetch)(cards[i]) == ExtractJobDetails(cards[i], fetch);
    }
  }

  /** Every record extracted from a page is well formed. */
  lemma {:induction false} ExtractAllWellFormed(cards: seq<Card>, fetch: string -> Option<DetailPage>)
    ensures AllWellFormed(ExtractAll(cards, fetch))
  {
    if cards != [] {
      var first := ExtractJobDetails(cards[0], fetch);
      ExtractAllWellFormed(cards[1..], fetch);
      assert Extractor(fetch)(cards[0]) == first;
      assert ExtractAll(cards, fetch) == Listed(first) + ExtractAll(cards[1..], fetch);
      if first.Some? {
        ExtractJobDetailsWellFormed(cards[0], fetch);
        assert [first.value][0] == first.value;
      }
      AllWellFormedAppend(Listed(first), ExtractAll(cards[1..], fetch));
    }
  }
}
