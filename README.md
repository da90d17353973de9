# jobs.cz Python-listings scraper, modelled in Dafny

The program walks the jobs.cz search for Python job offers. It:

- probes the search pages to learn how many there are (`get_total_pages`);
- turns each card that has a title link into a record (`extract_job_details`), page by page,
  up to `total_pages` or the first failed or card-less page. Cards without a title, link or
  href are dropped. The record holds the title, the company, the location, the detail URL,
  and the description text taken from the detail page and cleaned (`extract_job_text`,
  `clean_text`);
- renders all records as one Markdown text (`create_markdown_content`);
- replaces the whole body of a Google Doc with that text, using one `batchUpdate` of two
  requests (`update_google_doc`).

This project models that core and proves what it promises.

| file | module | what it holds |
|---|---|---|
| `wrappers.dfy` | `Wrappers` | `Option` |
| `text_cleaning.dfy` | `TextCleaning` | `clean_text` and the Python string operations it uses (`re.sub` of a run, `split`, `join`, `strip`/`isspace`) |
| `listings.dfy` | `Listings` | the card and detail-page data, `extract_job_text`, `extract_job_details`, and the card loop as a value (`Collect`) |
| `pagination.dfy` | `Pagination` | the page-count probe as a specification function |
| `rendering.dfy` | `Rendering` | the Markdown text as a specification function |
| `docs_sync.dfy` | `DocsSync` | the `batchUpdate` request list, plus an idealised document text that shows what the list does |
| `scraper.dfy` | `Scraper` | class `JobScraper`, and `Run` (`main()`) |

The class `JobScraper` keeps the program's mutable field `jobs` and its methods:

- `GetTotalPages` and `ScrapeJobs` with their loops;
- `CollectPage`, the loop over the cards of one page;
- `CreateMarkdownContent` and `UpdateGoogleDoc`.

`JobScraper.Valid()` says every record in `jobs` has a URL that starts with "http" and a clean
description.
The constructor establishes it and `ScrapeJobs` keeps it. It is a kept invariant only: no
operation requires it. `CollectPage` is generic over the extraction function, so it does not
promise it on its own.

Each method is proved against a specification function (`TotalPages`, `ScrapedJobs`,
`Collect`, `Render`, `ReplaceRequests`). Lemmas then prove what those functions promise.

The network is a value, `Network`. It holds:

- the answers to the probe requests, one per page, as `Probe` values;
- whether the first search page was fetched;
- the answers to the search pages the scrape loop requests;
- the detail-page answer for every URL (a function from URL to `Option<DetailPage>`).

Beyond the end of a script, every fetch fails. The HTML is already searched: a card holds the
elements the source looks up, each as an `Option` with its stripped text.

Three behaviours of the code that the model keeps as written:

- **Check order.** `get_total_pages` looks for the "page not available" marker before it
  counts the cards.
- **Break, not skip.** `scrape_jobs` stops the page loop at the first failed or card-less page
  (`break`). It does not skip such a page.
- **No job ids.** Records carry no id, because the code parses none.

## Model

| member | source | states |
|---|---|---|
| TextCleaning.IndexOf | scraper.py:35 | the position of the first separator, or the length: nothing before it is the separator |
| TextCleaning.Split | scraper.py:35 | `text.split('\n')` has at least one piece, and no piece holds the separator |
| TextCleaning.JoinSplit | scraper.py:35 | joining the pieces of a split gives the text back |
| TextCleaning.SplitJoin | scraper.py:35 | splitting a join of separator-free pieces gives the pieces back |
| TextCleaning.SplitNoAdjacent | scraper.py:35 | every piece of a split keeps "no two adjacent c" |
| TextCleaning.SplitOfBlank | scraper.py:35 | every piece of a blank text is blank |
| TextCleaning.SplitOfVisible | scraper.py:35 | a visible character lands on a piece that is not blank |
| TextCleaning.JoinNoAdjacent | scraper.py:35 | joining pieces with no adjacent c, by another separator, leaves no adjacent c |
| TextCleaning.JoinSeparatesOnce | scraper.py:35 | joining non-empty pieces never puts two separators side by side |
| TextCleaning.KeepNonBlank | scraper.py:35 | the filter keeps at most as many lines as it is given, and keeps a list with no blank line whole |
| TextCleaning.KeepNonBlankMembers | scraper.py:35 | the filter keeps only lines of the input, none blank, and keeps every line with a visible character |
| TextCleaning.KeepNonBlankAppend | scraper.py:35 | the filter works line by line in input order: filtering two runs gives the two kept runs one after the other |
| TextCleaning.CapRunsLeadingRun | scraper.py:30-33 | a maximal run of n copies of c comes out as min(n, m) copies (`\n{3,}`→`\n\n` is m = 2; ` +`→` ` is m = 1) |
| TextCleaning.CapFromSeparates | scraper.py:32-33 | after ` +`→` `, no two spaces are adjacent |
| TextCleaning.CapFromIdentity | scraper.py:30-33 | capping a text that has no adjacent c changes nothing |
| TextCleaning.CapFromBlank | scraper.py:30-33 | capping runs of a whitespace character keeps a text blank or visible |
| TextCleaning.CleanedLinesShape | scraper.py:30-35 | every kept line is non-blank, holds no newline, and has no two adjacent spaces |
| TextCleaning.CleanTextEmpty | scraper.py:25-36 | `clean_text` gives "" exactly when the text has no visible character (so "" gives "") |
| TextCleaning.CleanTextLinesVisible | scraper.py:34-35 | every line of a cleaned text has a visible character |
| TextCleaning.CleanTextSingleNewlines | scraper.py:30-35 | a cleaned text never holds two adjacent newlines |
| TextCleaning.CleanTextSingleSpaces | scraper.py:32-35 | a cleaned text never holds two adjacent spaces |
| TextCleaning.CleanTextIdempotent | scraper.py:25-36 | cleaning a cleaned text changes nothing |
| Listings.ExtractJobText | scraper.py:45-56 | no `data-jobad=body` container gives ""; otherwise the container's text, cleaned |
| Listings.ExtractJobTextClean | scraper.py:45-56 | the extracted text is already clean |
| Listings.AbsoluteUrl | scraper.py:106-108 | an href starting with "http" is kept as it is; any other href is put after `https://www.jobs.cz`; either way the URL starts with "http" and ends with the href |
| Listings.AbsoluteUrlIdempotent | scraper.py:107-108 | resolving a resolved URL changes nothing |
| Listings.Locate | scraper.py:96-108 | no title, no link or no href gives None; otherwise the title text and the resolved URL (`AbsoluteUrl`) |
| Listings.ExtractJobDetails | scraper.py:93-134 | the card is dropped exactly when it has no title, link or href |
| Listings.ExtractedFields | scraper.py:110-130 | title, url; company "" and location "Remote" when missing; text "" unless the detail page was fetched and has a container, else its cleaned text |
| Listings.ExtractJobDetailsWellFormed | scraper.py:106-122 | an extracted record has a URL that starts with "http" and a clean description |
| Listings.ExtractionFetchesOnlyOwnUrl | scraper.py:97-122 | a record depends on the network only through its own URL; a dropped card makes no detail request |
| Listings.Collect | scraper.py:221-226 | no more records than cards; one record per card when no card is dropped |
| Listings.CollectAppend | scraper.py:221-226 | the cards of two runs give the two record lists one after the other |
| Listings.CollectSnoc | scraper.py:223-225 | one more card appends its record, if any, at the end |
| Listings.ExtractAllKeepsLocated | scraper.py:221-226 | a page whose every card has a title link gives one record per card |
| Listings.ExtractAllWellFormed | scraper.py:221-226 | every record of a page is well formed |
| Pagination.FirstStopDecides | scraper.py:136-174 | the first page where the probe stops decides the count: that page (fetch failure, no-results page, empty result list) or the page before it (not-available marker) |
| Pagination.FirstStopExists | scraper.py:139-167 | for a finite script, the probe always reaches a page where it stops |
| Pagination.TotalPagesBound | scraper.py:136-174 | the count is at most one past the pages the script answers |
| Pagination.EmptyPageWithoutMarkerContinues | scraper.py:156-167 | a page with no cards and neither marker does not end the probe |
| Scraper.JobScraper.GetTotalPages | scraper.py:136-174 | the `while True` probe loop returns TotalPages of the probe answers |
| Scraper.PagesScraped | scraper.py:202-235 | the pages worked through: at most total_pages and at most the pages that exist; all of them yield cards; when fewer than total_pages, the next one failed or was empty |
| Scraper.PagesScrapedUnique | scraper.py:202-235 | those three facts determine the number of pages worked through |
| Scraper.JobsOfPagesInCardOrder | scraper.py:202-231 | the records of the pages are those of all their cards, taken in page order and then in card order |
| Scraper.JobsOfPagesWellFormed | scraper.py:202-231 | every record scraped from a run of pages is well formed |
| Scraper.ScrapeStopsAtFirstBadPage | scraper.py:202-217 | pages after the first failed or empty page, and after page total_pages, do not affect the records |
| Scraper.JobScraper.constructor | scraper.py:58-62 | a new scraper has no records |
| Scraper.JobScraper.ScrapeJobs | scraper.py:176-237 | appends exactly ScrapedJobs(net) to `jobs` (nothing if the first page fetch fails); returns the number of records found and of pages worked through; keeps every record well formed |
| Scraper.JobScraper.CollectPage | scraper.py:221-230 | the card loop appends to `jobs` exactly what Collect gives for the page, and counts it |
| Rendering.Decimal | scraper.py:242 | `str(len(self.jobs))`: at least one digit, all decimal digits, no leading zero: a string starting with '0' is exactly "0", for 0 |
| Rendering.DecimalRoundTrip | scraper.py:242 | the printed count reads back as the count |
| Rendering.HeaderCount | scraper.py:242 | the header is the title, "Poslední aktualizace: " then the timestamp, "Počet nalezených nabídek: " then the count, and a blank line |
| Rendering.SectionLayout | scraper.py:245-249 | a section is "## " title, the URL, company and location lines, "Text inzerátu:" then the text, then `---` between blank lines |
| Rendering.SectionsAppend | scraper.py:244-249 | the sections of two lists are the two section texts one after the other |
| Rendering.SectionAt | scraper.py:244-249 | record i owns the section that starts where the sections of records 0..i-1 end |
| Scraper.JobScraper.CreateMarkdownContent | scraper.py:239-251 | the loop builds Render(jobs, now): the header followed by one section per record, in list order |
| DocsSync.ReplaceOverwritesEverything | scraper.py:265-283 | for any document text besides its final newline, the two requests built from its end index leave exactly the new content plus that newline |
| DocsSync.ReplaceFailsOnEmptyDocument | scraper.py:265-283 | for a document holding only its final newline, the delete range [1, 1) is empty and the whole batch fails |
| Scraper.JobScraper.UpdateGoogleDoc | scraper.py:253-293 | no or empty GOOGLE_DOC_ID gives no call; an unreadable document or an empty body gives no update; otherwise a batchUpdate for the id: delete [1, endIndex-1), then insert the Markdown at 1; endIndex is 1 when absent |
| Scraper.Run | scraper.py:295-298 | main(): the same three outcomes, with the Markdown of exactly the records one scrape finds |

## Left out

- `fetch_page` (scraper.py:73-91), the HTTP request, its headers and its timeout. A fetch is an
  answer from the `Network` script, either None or the searched page.
- HTML parsing and BeautifulSoup queries. A card is given as the optional elements it holds.
  The detail body is given as its text once the script, style, nav, header and footer elements
  are removed (`decompose`, `get_text(separator='\n', strip=True)`).
- `setup_google_docs` (scraper.py:64-71), the credentials, and the Google API calls themselves.
  The model stops at the request list the code would send.
- The document text model in `DocsSync` is idealised. A delete of an empty or inverted range,
  or a request outside the text, fails the whole batch there. Other API-side rejections are not
  modelled.
- Listings.AbsoluteUrl: like the source, it keeps any href that starts with "http" as it is,
  even one that is not absolute (such as `httpx/1`), so `WellFormed` promises only a URL that
  starts with "http", not a URL that is absolute.
- `Network.detail` is a function of the URL, so two fetches of the same detail URL give the
  same answer. The source fetches once per card, so a listing that appears on two pages is
  fetched twice and could get two different answers; the model does not capture that.
- `os.getenv` and `load_dotenv`. The doc id is an `Option<string>` parameter.
- `datetime.now().strftime`. The timestamp is a formatted string parameter.
- `time.sleep` and every `print`, because they do not affect the result.
- The search URL text (scraper.py:140, 186, 203-205). Pages are numbered from 1 instead.
- The total-count parse of the first page (scraper.py:192-199). It is only printed.
- The `try`/`except` around a card (scraper.py:222-230) and inside `extract_job_details`
  (scraper.py:132-134). No modelled step raises, so a failure shows up only as a missing answer.
- `get_total_pages` termination: `while True` ends in the model because pages beyond the probe
  script are fetch failures. A real site that never stops is not modelled.
- Scraper.JobScraper.ScrapeJobs: the card loop is the separate method `CollectPage` that it
  calls. The loop and its effect on `jobs` are unchanged.
- The abstract base class `JobBoardScraper` and the `JobsCzScraper` fields (`base_url`,
  `search_params`) are not modelled. They feed only the URL text.
