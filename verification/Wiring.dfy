/** The crawl with the verified normaliser and URL parser wired in: whose pages it can reach at all. */
module Wiring {
  import opened Wrappers
  import opened Frontier
  import opened Filters
  import opened Text
  import opened UrlParts
  import opened Normalizer
  import opened Idempotence
  import opened Brackets
  import opened CrawlSystem
  import opened CrawlTheorems

  predicate IsText(u: string) {
    forall i | 0 <= i < |u| :: u[i] as int < 256
  }

  /** `URLNormalizer.normalize`; a string beyond the octets is not modelled and yields nothing. */
  function NormalizeUrl(u: Url): Option<Key> {
    if !IsText(u) then None else
    match Normalize(u)
    case None => None
    case Some(k) => Some(k)
  }

  /** What the filter steps see of `urlparse`; None where it raises. */
  function ParseKey(k: Key): Option<ParsedUrl> {
    if !IsText(k) || ParseUrl(k).None? then None else
    var parts := ParseUrl(k).value;
    Some(ParsedUrl(parts.scheme, if Hostname(parts.netloc) == [] then None else Some(Hostname(parts.netloc))))
  }

  ghost predicate Wired(c: Crawl) {
    && (forall u :: c.normalize(u) == NormalizeUrl(u))
    && (forall k :: c.filter.parse(k) == ParseKey(k))
  }

  // ---- A seed whose authority is more than a host name ----

  /** The domain the filter compares with can be a host name at all. */
  ghost predicate BareDomain(domain: string) {
    IsText(domain) && BareHost(domain)
  }

  lemma InScopeIsBare(c: Crawl, u: Url, k: Key)
    requires Wired(c) && c.normalize(u) == Some(k) && InScope(c.filter, k)
    ensures BareDomain(c.filter.seedDomain)
  {
    assert c.normalize(u) == NormalizeUrl(u) && c.filter.parse(k) == ParseKey(k);
    NormalHostIsBare(u, k);
  }

  /**
   When the domain is an authority with a port, user information or upper-case letters, as it is for a seed
   written so, every run stores the seed and nothing else.
   */
  lemma OnlySeedStored(c: Crawl, s: Sys)
    requires Wired(c) && !BareDomain(c.filter.seedDomain) && Reached(c, s)
    ensures s.rows.Keys <= {c.seed}
  {
    forall k | k in s.rows
      ensures k == c.seed
    {
      if k != c.seed {
        RowsInScope(c, s, k);
        InScopeIsBare(c, s.rows[k].url, k);
        assert false;
      }
    }
  }

  // ---- Links the filter chokes on ----

  /** What the crawl makes of a link is what the normaliser makes of it. */
  lemma WiredTarget(c: Crawl, u: Text, k: Text)
    requires Wired(c) && Normalize(u) == Some(k) && k != []
    ensures Chokes(c, u) <==> ParseUrl(k).None?
  {
    assert c.normalize(u) == NormalizeUrl(u);
    assert c.filter.parse(k) == ParseKey(k);
  }

  lemma NoTarget(c: Crawl, u: Text)
    requires Wired(c) && Normalize(u).None?
    ensures !Chokes(c, u)
  {
    assert c.normalize(u) == NormalizeUrl(u);
  }

  lemma PrintedNonempty(k: Components)
    ensures Print(k) != []
  {
  }

  lemma NormalizedIff(u: Text)
    ensures Normalize(u).Some? <==> Read(u).Some?
    ensures Normalize(u).Some? ==> Normalize(u).value != []
  {
    NormalizeIs(u);
    if Read(u).Some? {
      PrintedNonempty(Canonical(Read(u).value));
    }
  }

  /** The filter chokes on a link exactly when the host the parser reads from it holds a bracket. */
  lemma ChokesIff(c: Crawl, u: Text)
    requires Wired(c)
    ensures Chokes(c, u) <==> Read(u).Some? && HasBracket(Read(u).value.host)
  {
    NormalizedIff(u);
    match Normalize(u)
    case None => NoTarget(c, u);
    case Some(k) =>
      WiredTarget(c, u, k);
      UnparsableIff(u, k);
  }

  /** Such a link exists, however the crawl is configured: one page can lose all links behind it. */
  lemma ChokingLink(c: Crawl)
    requires Wired(c)
    ensures Chokes(c, "http://[v1.a[b]/")
  {
    BracketSurvives();
    WiredTarget(c, "http://[v1.a[b]/", "http://v1.a[b/");
  }
}
