/**
 * Choosing the scraper for a results URL: the hostname is lower-cased, one leading `www.` is
 * removed, and what remains must equal one of the four supported hosts.
 */
module ScraperFactory {
  import opened Wrappers
  import opened Errors
  import opened Text
  import opened Urls

  /** The four supported result sites. */
  datatype Site = Finishtime | Bouttime | UltimateDk | MobiiElite

  /** A scraper object: which site it scrapes, and the URL it was created with. */
  datatype Scraper = Scraper(site: Site, url: Url)

  function HostOf(site: Site): string {
    match site
    case Finishtime => "results.finishtime.co.za"
    case Bouttime => "bouttime.co.za"
    case UltimateDk => "live.ultimate.dk"
    case MobiiElite => "mobiielite.com"
  }

  /** One leading `www.` removed. */
  function WithoutWww(host: string): (r: string)
    ensures StartsWith(host, "www.") ==> host == "www." + r
    ensures !StartsWith(host, "www.") ==> r == host
  {
    if StartsWith(host, "www.") then
      assert host == host[..4] + host[4..];
      host[4..]
    else
      host
  }

  /** The site whose host is exactly `host`. */
  function SiteFor(host: string): (r: Option<Site>)
    ensures r.Some? ==> HostOf(r.value) == host
  {
    if host == HostOf(Finishtime) then Some(Finishtime)
    else if host == HostOf(Bouttime) then Some(Bouttime)
    else if host == HostOf(UltimateDk) then Some(UltimateDk)
    else if host == HostOf(MobiiElite) then Some(MobiiElite)
    else None
  }

  /** The dispatch on an already extracted hostname. */
  function Select(hostname: Option<string>, u: Url): Result<Scraper, Error> {
    match hostname
    case None => Err(NoHostname(u.text))
    case Some(h) =>
      match SiteFor(WithoutWww(Lower(h)))
      case Some(site) => Ok(Scraper(site, u))
      case None => Err(UnknownScraper(u.text))
  }

  /** The error `urlparse` raises for a netloc whose brackets do not match. */
  const InvalidIpv6 := Crash("ValueError: Invalid IPv6 URL")

  /** `get_scraper(url)`: parsing the URL can raise before the hostname is read. */
  function GetScraper(u: Url): (r: Result<Scraper, Error>)
    ensures r.Ok? ==> r.value.url == u && BracketsMatch(u.netloc)
    ensures !BracketsMatch(u.netloc) ==> r == Err(InvalidIpv6)
    ensures BracketsMatch(u.netloc) && r.Err? ==>
      r.error == (if Hostname(u.netloc).None? then NoHostname(u.text) else UnknownScraper(u.text))
  {
    if !BracketsMatch(u.netloc) then Err(InvalidIpv6)
    else Select(Hostname(u.netloc), u)
  }

  lemma HostsDistinct(a: Site, b: Site)
    requires HostOf(a) == HostOf(b)
    ensures a == b
  {
    assert |HostOf(Finishtime)| == 24 && |HostOf(UltimateDk)| == 16;
    assert HostOf(Bouttime)[0] != HostOf(MobiiElite)[0];
  }

  lemma SiteForIs(host: string, site: Site)
    ensures SiteFor(host) == Some(site) <==> host == HostOf(site)
  {
    if host == HostOf(site) {
      HostsDistinct(SiteFor(host).value, site);
    }
  }

  lemma NoHostStartsWithWww(site: Site)
    ensures !StartsWith(HostOf(site), "www.")
  {
    assert HostOf(site)[0] != 'w';
  }

  /** Removing one `www.` yields a supported host exactly when the input is that host, with or without `www.`. */
  lemma WithoutWwwIs(host: string, site: Site)
    ensures WithoutWww(host) == HostOf(site) <==> host == HostOf(site) || host == "www." + HostOf(site)
  {
    NoHostStartsWithWww(site);
    if host == "www." + HostOf(site) {
      assert StartsWith(host, "www.");
    }
  }

  /**
   * A URL selects a site exactly when its lower-cased hostname is that site's host, or that host
   * behind a single `www.`.
   */
  lemma SelectsExactly(u: Url, site: Site)
    ensures GetScraper(u) == Ok(Scraper(site, u)) <==>
      BracketsMatch(u.netloc) && Hostname(u.netloc).Some? &&
      (Lower(Hostname(u.netloc).value) == HostOf(site) || Lower(Hostname(u.netloc).value) == "www." + HostOf(site))
  {
    var hn := Hostname(u.netloc);
    if hn.Some? {
      WithoutWwwIs(Lower(hn.value), site);
      SiteForIs(WithoutWww(Lower(hn.value)), site);
    }
  }

  /** Any other hostname is refused with an error that names the URL. */
  lemma UnknownHostRejected(u: Url, hostname: string)
    requires BracketsMatch(u.netloc) && Hostname(u.netloc) == Some(hostname)
    requires forall site: Site :: Lower(hostname) != HostOf(site) && Lower(hostname) != "www." + HostOf(site)
    ensures GetScraper(u) == Err(UnknownScraper(u.text))
  {
    var r := Select(Some(hostname), u);
    if r.Ok? {
      SelectsExactly(u, r.value.site);
    }
  }

  lemma LowerBouttime()
    ensures Lower("Bouttime.CO.ZA") == "bouttime.co.za"
  {
    var l := Lower("Bouttime.CO.ZA");
    assert l[0] == 'b' && l[9] == 'c' && l[10] == 'o' && l[12] == 'z' && l[13] == 'a';
  }

  /** Upper-case letters in the hostname make no difference: `Bouttime.CO.ZA` selects Bouttime. */
  lemma MixedCaseHost(u: Url)
    requires u.netloc == "Bouttime.CO.ZA"
    ensures GetScraper(u) == Ok(Scraper(Bouttime, u))
  {
    MixedCaseHostname(u.netloc);
    SelectsExactly(u, Bouttime);
  }

  lemma MixedCaseHostname(n: string)
    requires n == "Bouttime.CO.ZA"
    ensures BracketsMatch(n) && Hostname(n).Some? && Lower(Hostname(n).value) == HostOf(Bouttime)
  {
    assert '[' !in n && ']' !in n by {
      assert forall i :: 0 <= i < |n| ==> n[i] != '[' && n[i] != ']';
    }
    HostnameOfAuthority("", n, "");
    LowerBouttime();
    LowerIdempotent(n);
  }

  /** A character of a plain host name: a lower-case letter, a digit, `.` or `-`. */
  predicate HostChar(c: char) {
    'a' <= c <= 'z' || '0' <= c <= '9' || c == '.' || c == '-'
  }

  lemma PlainHost(n: string)
    requires n != "" && forall i :: 0 <= i < |n| ==> HostChar(n[i])
    ensures '@' !in n && '[' !in n && ']' !in n && '%' !in n
    ensures BracketsMatch(n) && Hostname(n) == Some(n) && Lower(n) == n
    ensures forall i :: 0 <= i < |n| ==> !IsUpper(n[i])
  {
    HostnameOfAuthority("", n, "");
    LowerUnchanged(n);
  }

  lemma DoubleWwwHost(n: string)
    requires n == "www.www.bouttime.co.za"
    ensures BracketsMatch(n) && Hostname(n) == Some(n) && Lower(n) == n
    ensures forall site: Site :: n != HostOf(site) && n != "www." + HostOf(site)
  {
    PlainHost(n);
    forall site: Site ensures n != HostOf(site) && n != "www." + HostOf(site) {
      assert |n| == 22;
    }
  }

  /** Only one `www.` is removed, so `www.www.bouttime.co.za` is refused. */
  lemma DoubleWwwRejected(u: Url)
    requires u.netloc == "www.www.bouttime.co.za"
    ensures GetScraper(u) == Err(UnknownScraper(u.text))
  {
    var n := u.netloc;
    DoubleWwwHost(n);
    UnknownHostRejected(u, n);
  }

  lemma SubdomainHost(n: string)
    requires n == "x.live.ultimate.dk"
    ensures BracketsMatch(n) && Hostname(n) == Some(n) && Lower(n) == n
    ensures forall site: Site :: n != HostOf(site) && n != "www." + HostOf(site)
  {
    PlainHost(n);
    forall site: Site ensures n != HostOf(site) && n != "www." + HostOf(site) {
      assert n[0] == 'x';
    }
  }

  /** Matching is by equality, so a subdomain of a supported host is refused. */
  lemma SubdomainRejected(u: Url)
    requires u.netloc == "x.live.ultimate.dk"
    ensures GetScraper(u) == Err(UnknownScraper(u.text))
  {
    var n := u.netloc;
    SubdomainHost(n);
    UnknownHostRejected(u, n);
  }

  /** The supported hosts are plain host names. */
  lemma HostIsPlain(site: Site)
    ensures HostOf(site) != "" && '@' !in HostOf(site) && '[' !in HostOf(site) && ']' !in HostOf(site)
    ensures '%' !in HostOf(site) && forall i :: 0 <= i < |HostOf(site)| ==> !IsUpper(HostOf(site)[i])
  {
    match site
    case Finishtime => PlainHost("results.finishtime.co.za");
    case Bouttime => PlainHost("bouttime.co.za");
    case UltimateDk => PlainHost("live.ultimate.dk");
    case MobiiElite => PlainHost("mobiielite.com");
  }

  /**
   * A supported host behind an unmatched `[` is no IPv6 address: `urlparse` raises before any
   * host is compared, although the hostname read past the bracket is the supported host.
   */
  lemma UnmatchedBracketRejected(u: Url, site: Site)
    requires u.netloc == "[" + HostOf(site)
    ensures Hostname(u.netloc) == Some(HostOf(site))
    ensures GetScraper(u) == Err(InvalidIpv6)
  {
    HostIsPlain(site);
    HostnameAfterBracket(HostOf(site));
  }
}
