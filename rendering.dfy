/**
 * The text built by JobScraper.create_markdown_content, as a specification; the method that
 * builds it step by step is JobScraper.CreateMarkdownContent. The clock reading comes in
 * already formatted ("%d.%m.%Y %H:%M").
 */
module Rendering {
  import opened Listings

  function DigitChar(d: nat): (ch: char)
    requires d < 10
    ensures '0' <= ch <= '9' && ch as int - '0' as int == d
  {
    ('0' as int + d) as char
  }

  predicate AllDigits(s: string) {
    forall i :: 0 <= i < |s| ==> '0' <= s[i] <= '9'
  }

  /** Python's `str(n)` for a count: its decimal digits, without leading zeros. */
  function Decimal(n: nat): (s: string)
    ensures |s| >= 1 && AllDigits(s)
    ensures s[0] == '0' ==> n == 0 && |s| == 1
    decreases n
  {
    if n < 10 then [DigitChar(n)] else Decimal(n / 10) + [DigitChar(n % 10)]
  }

  /** The value of a string of decimal digits. */
  function ParseDecimal(s: string): nat
    requires AllDigits(s)
  {
    if s == [] then 0 else ParseDecimal(s[..|s| - 1]) * 10 + (s[|s| - 1] as int - '0' as int)
  }

  /** Reading the printed count back gives the count. */
  lemma {:induction false} DecimalRoundTrip(n: nat)
    ensures ParseDecimal(Decimal(n)) == n
    decreases n
  {
    if n >= 10 {
      DecimalRoundTrip(n / 10);
      var s := Decimal(n);
      assert s[..|s| - 1] == Decimal(n / 10);
    }
  }

  /** The parts, one after the other. */
  function Concat(parts: seq<string>): string {
    if parts == [] then [] else parts[0] + Concat(parts[1..])
  }

  /** The fixed pieces of the header, around the timestamp and the count. */
  const HeaderTitle: string := "# Python pracovní nabídky\nPoslední aktualizace: "
  const CountLabel: string := "\nPočet nalezených nabídek: "
  const HeaderEnd: string := "\n\n"

  /** The fixed pieces of a section, between and around the record's fields. */
  const TitleMark: string := "## "
  const UrlLabel: string := "\nURL adresa: "
  const CompanyLabel: string := "\nSpolečnost: "
  const LocationLabel: string := "\nLokalita: "
  const TextLabel: string := "\nText inzerátu:\n"
  const SectionEnd: string := "\n\n---\n\n"

  /** The header: title line, last-update line with the timestamp, count line, blank line. */
  function Header(now: string, count: nat): string {
    Concat([HeaderTitle, now, CountLabel, Decimal(count), HeaderEnd])
  }

  /** One listing: title heading, URL, company, location, then the description and a rule. */
  function Section(job: Job): string {
    Concat([TitleMark, job.title, UrlLabel, job.url, CompanyLabel, job.company,
      LocationLabel, job.location, TextLabel, job.text, SectionEnd])
  }

  /** The sections of all listings, in list order. */
  function Sections(jobs: seq<Job>): string {
    if jobs == [] then [] else Section(jobs[0]) + Sections(jobs[1..])
  }

  /** create_markdown_content. */
  function Render(jobs: seq<Job>, now: string): string {
    Header(now, |jobs|) + Sections(jobs)
  }

  /** The sections of two lists one after the other are the two section texts one after the other. */
  lemma {:induction false} SectionsAppend(a: seq<Job>, b: seq<Job>)
    ensures Sections(a + b) == Sections(a) + Sections(b)
  {
    if a == [] {
      assert a + b == b;
    } else {
      var first, rest := Section(a[0]), Sections(a[1..]);
      calc {
        Sections(a + b);
        Section((a + b)[0]) + Sections((a + b)[1..]);
        { assert (a + b)[0] == a[0]; assert (a + b)[1..] == a[1..] + b; }
        first + Sections(a[1..] + b);
        { SectionsAppend(a[1..], b); }
        first + (rest + Sections(b));
        (first + rest) + Sections(b);
      }
    }
  }

  /**
   * Listing `i` owns exactly the stretch of the sections text that starts where the sections of
   * listings 0..i-1 end: one section per listing, in list order.
   */
  lemma SectionAt(jobs: seq<Job>, i: nat)
    requires i < |jobs|
    ensures var start := |Sections(jobs[..i])|;
      && start + |Section(jobs[i])| <= |Sections(jobs)|
      && Sections(jobs)[start..start + |Section(jobs[i])|] == Section(jobs[i])
  {
    assert jobs == jobs[..i] + ([jobs[i]] + jobs[i + 1..]);
    SectionsAppend(jobs[..i], [jobs[i]] + jobs[i + 1..]);
    assert ([jobs[i]] + jobs[i + 1..])[1..] == jobs[i + 1..];
  }

  /** Concat of some parts and then one more. */
  lemma {:induction false} ConcatSnoc(parts: seq<string>, last: string)
    ensures Concat(parts + [last]) == Concat(parts) + last
  {
    if parts == [] {
      assert [] + [last] == [last] && [last][1..] == [];
    } else {
      ConcatSnoc(parts[1..], last);
      assert (parts + [last])[1..] == parts[1..] + [last];
    }
  }

  /**
   * A section is the title heading, then the URL, company, location and description lines in
   * that order, and ends with the horizontal rule followed by a blank line.
   */
  lemma SectionLayout(job: Job)
    ensures Section(job) == TitleMark + job.title + UrlLabel + job.url + CompanyLabel + job.company
      + LocationLabel + job.location + TextLabel + job.text + SectionEnd
  {
    var p := [TitleMark];
    assert Concat(p) == TitleMark;
    ConcatSnoc(p, job.title);
    p := p + [job.title];
    ConcatSnoc(p, UrlLabel);
    p := p + [UrlLabel];
    ConcatSnoc(p, job.url);
    p := p + [job.url];
    ConcatSnoc(p, CompanyLabel);
    p := p + [CompanyLabel];
    ConcatSnoc(p, job.company);
    p := p + [job.company];
    ConcatSnoc(p, LocationLabel);
    p := p + [LocationLabel];
    ConcatSnoc(p, job.location);
    p := p + [job.location];
    ConcatSnoc(p, TextLabel);
    p := p + [TextLabel];
    ConcatSnoc(p, job.text);
    p := p + [job.text];
    ConcatSnoc(p, SectionEnd);
    p := p + [SectionEnd];
    assert p == [TitleMark, job.title, UrlLabel, job.url, CompanyLabel, job.company,
      LocationLabel, job.location, TextLabel, job.text, SectionEnd];
  }

  /** The header states the number of listings, as digits that read back as that number. */
  lemma HeaderCount(now: string, count: nat)
    ensures Header(now, count) == HeaderTitle + now + CountLabel + Decimal(count) + HeaderEnd
    ensures ParseDecimal(Decimal(count)) == count
  {
    var digits := Decimal(count);
    var parts := [HeaderTitle, now, CountLabel, digits, HeaderEnd];
    assert parts[1..] == [now, CountLabel, digits, HeaderEnd];
    assert parts[1..][1..] == [CountLabel, digits, HeaderEnd];
    assert parts[1..][1..][1..] == [digits, HeaderEnd];
    assert parts[1..][1..][1..][1..] == [HeaderEnd];
    assert parts[1..][1..][1..][1..][1..] == [];
    assert Concat([HeaderEnd]) == HeaderEnd;
    assert Concat([digits, HeaderEnd]) == digits + HeaderEnd;
    assert Concat([CountLabel, digits, HeaderEnd]) == CountLabel + digits + HeaderEnd;
    assert Concat([now, CountLabel, digits, HeaderEnd]) == now + CountLabel + digits + HeaderEnd;
    DecimalRoundTrip(count);
  }
}
