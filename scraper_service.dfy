/**
  The HTML scrape path of scraperService.js: the per-country source
  registry, the filter applied to the nodes a source's selector matches, the
  country-by-source fan-out and the batch insert of what was scraped.
  Fetching a page and evaluating a selector on it are inputs: a source's page
  is either the sequence of matched nodes or `None` when the request or the
  parse failed.
*/
module ScraperService {
  import opened Common
  import opened Database

  /** An entry of the source registry, config/newsSources.js. */
  datatype SourceConfig = SourceConfig(name: string, url: string, selector: string)

  /** A registry entry stamped with the city and country it is scraped for. */
  datatype Source = Source(name: string, url: string, selector: string, city: string, country: string)

  /** Country name to its ordered list of sources. */
  type Registry = map<string, seq<SourceConfig>>

  /** A node the selector matched: its text content and its `href`
      attribute, when it has one. */
  datatype Match = Match(text: string, href: Option<string>)

  datatype ScrapedArticle = ScrapedArticle(
    title: string, url: string, source: string, city: string, country: string, publishedAt: int)

  /** `new URL(href, base).href`; `None` when the constructor throws. */
  type Resolver = (string, string) -> Option<string>

  /** What the scraper fetched for a source: the matched nodes, or `None` when
      the request or the parse failed. */
  type Pages = Source -> Option<seq<Match>>

  // ---------------------------------------------------------------------
  // Lookups

  /** `getSourcesForCountry`: the registry entry, or no sources. */
  function SourcesForCountry(registry: Registry, country: string): (r: seq<SourceConfig>)
    ensures country !in registry ==> r == []
    ensures country in registry ==> r == registry[country]
  {
    if country in registry then registry[country] else []
  }

  const MainCities: map<string, string> := map[
    "Ghana" := "Accra",
    "Nigeria" := "Lagos",
    "USA" := "New York",
    "UK" := "London",
    "Canada" := "Toronto",
    "Kenya" := "Nairobi",
    "South Africa" := "Johannesburg"
  ]

  /** `getMainCity`: the country's main city, or 'Unknown'. */
  function MainCity(country: string): string {
    if country in MainCities then MainCities[country] else "Unknown"
  }

  /** No mapped city is called 'Unknown', so the fallback is recognisable:
      'Unknown' comes back exactly for the unmapped countries. */
  lemma MainCityUnknownIff(country: string)
    ensures MainCity(country) == "Unknown" <==> country !in MainCities
  {
  }

  /** The scraper's own coordinate table (smaller than the one of
      newsService.js). */
  const ScraperCityCoords: map<string, Coords> := map[
    "London-UK" := Coords(515074, -1278),
    "New York-USA" := Coords(407128, -740060),
    "Global-Global" := Coords(0, 0)
  ]

  /** `getCityCoordinates` of scraperService.js. */
  function ScraperCityCoordinates(city: string, country: string): Coords {
    var key := city + "-" + country;
    if key in ScraperCityCoords then ScraperCityCoords[key] else Origin
  }

  /** Only London, UK and New York, USA get real coordinates from the scraper;
      every other pair, Accra included, is stored at (0, 0). */
  lemma ScraperCoordinatesNonZeroIff(city: string, country: string)
    ensures ScraperCityCoordinates(city, country) != Origin <==>
      (city == "London" && country == "UK") || (city == "New York" && country == "USA")
  {
    var key := city + "-" + country;
    if key == "London-UK" {
      DashKeyUnique(city, country, "London", "UK");
    } else if key == "New York-USA" {
      DashKeyUnique(city, country, "New York", "USA");
    }
  }

  // ---------------------------------------------------------------------
  // scrapeSource

  /** What the `.each` callback does with one matched node. */
  datatype Step = Skip | Emit(article: ScrapedArticle) | Abort

  function ScrapeStep(source: Source, m: Match, resolve: Resolver, now: int): Step {
    var title := Trim(m.text);
    if |title| <= 10 then Skip
    else if m.href.Some? && StartsWith(m.href.value, "http") then
      Emit(ScrapedArticle(title, m.href.value, source.name, source.city, source.country, now))
    else
      match resolve(m.href.GetOr(""), source.url)
      case None => Abort
      case Some(u) => Emit(ScrapedArticle(title, u, source.name, source.city, source.country, now))
  }

  /** The articles pushed so far, after one more node: an abort ends the
      call, and nothing after it is pushed. */
  function Then(acc: Option<seq<ScrapedArticle>>, step: Step): Option<seq<ScrapedArticle>> {
    match acc
    case None => None
    case Some(a) =>
      match step
      case Skip => acc
      case Emit(x) => Some(a + [x])
      case Abort => None
  }

  /** The articles pushed for the nodes `ms`, or `None` when resolving an
      href threw (which leaves the callback and ends the whole call). */
  function ScrapeMatches(source: Source, ms: seq<Match>, resolve: Resolver, now: int): Option<seq<ScrapedArticle>>
    decreases |ms|
  {
    if ms == [] then Some([])
    else Then(ScrapeMatches(source, ms[..|ms| - 1], resolve, now), ScrapeStep(source, ms[|ms| - 1], resolve, now))
  }

  lemma ScrapeMatchesPrefix(source: Source, ms: seq<Match>, i: nat, resolve: Resolver, now: int)
    requires i < |ms|
    ensures ScrapeMatches(source, ms[..i + 1], resolve, now)
         == Then(ScrapeMatches(source, ms[..i], resolve, now), ScrapeStep(source, ms[i], resolve, now))
  {
    assert ms[..i + 1][..i] == ms[..i];
  }

  /** The value `scrapeSource` resolves with: every failure becomes []. */
  function ScrapedFrom(source: Source, page: Option<seq<Match>>, resolve: Resolver, now: int): seq<ScrapedArticle> {
    match page
    case None => []
    case Some(ms) => ScrapeMatches(source, ms, resolve, now).GetOr([])
  }

  /** The nodes whose trimmed text is longer than ten characters. */
  function Kept(ms: seq<Match>): (r: seq<Match>)
    ensures |r| <= |ms|
  {
    if ms == [] then []
    else Kept(ms[..|ms| - 1]) + (if |Trim(ms[|ms| - 1].text)| > 10 then [ms[|ms| - 1]] else [])
  }

  /** Resolving the href of node `m` throws, and the node is one that is kept. */
  ghost predicate Aborts(source: Source, m: Match, resolve: Resolver) {
    && |Trim(m.text)| > 10
    && !(m.href.Some? && StartsWith(m.href.value, "http"))
    && resolve(m.href.GetOr(""), source.url).None?
  }

  /** The article built for node `m` carries the trimmed text as title, the
      source's name, city and country and the scrape time; an href that
      starts with "http" is its url verbatim. */
  ghost predicate BuiltFrom(a: ScrapedArticle, source: Source, m: Match, now: int) {
    && a.title == Trim(m.text)
    && a.source == source.name && a.city == source.city && a.country == source.country
    && a.publishedAt == now
    && (m.href.Some? && StartsWith(m.href.value, "http") ==> a.url == m.href.value)
  }

  /** How one node is handled, in the terms of the predicates above. */
  lemma StepCases(source: Source, m: Match, resolve: Resolver, now: int)
    ensures ScrapeStep(source, m, resolve, now).Skip? <==> |Trim(m.text)| <= 10
    ensures ScrapeStep(source, m, resolve, now).Abort? <==> Aborts(source, m, resolve)
    ensures ScrapeStep(source, m, resolve, now).Emit? ==>
      BuiltFrom(ScrapeStep(source, m, resolve, now).article, source, m, now)
  {
  }

  lemma KeptPrefix(ms: seq<Match>, i: nat)
    requires i < |ms|
    ensures Kept(ms[..i + 1]) == Kept(ms[..i]) + (if |Trim(ms[i].text)| > 10 then [ms[i]] else [])
  {
    assert ms[..i + 1][..i] == ms[..i];
  }

  /** The call ends in an abort exactly when some kept node's href cannot be
      resolved. */
  lemma {:induction false} ScrapeMatchesAbortIff(source: Source, ms: seq<Match>, resolve: Resolver, now: int)
    ensures ScrapeMatches(source, ms, resolve, now).None? <==>
      exists i :: 0 <= i < |ms| && Aborts(source, ms[i], resolve)
    decreases |ms|
  {
    if ms != [] {
      var n := |ms| - 1;
      var p := ms[..n];
      ScrapeMatchesAbortIff(source, p, resolve, now);
      ScrapeMatchesPrefix(source, ms, n, resolve, now);
      StepCases(source, ms[n], resolve, now);
      assert ms[..n + 1] == ms;
      if ScrapeMatches(source, p, resolve, now).None? {
        var i :| 0 <= i < |p| && Aborts(source, p[i], resolve);
        assert ms[i] == p[i];
      } else if !Aborts(source, ms[n], resolve) {
        forall i | 0 <= i < |ms| && Aborts(source, ms[i], resolve) ensures false {
        }
      }
    }
  }

  /** When no abort happens, one article is emitted per kept node, in node
      order, each built from its node. */
  lemma {:induction false} ScrapeMatchesEmits(source: Source, ms: seq<Match>, resolve: Resolver, now: int)
    ensures ScrapeMatches(source, ms, resolve, now).Some? ==>
      var acc := ScrapeMatches(source, ms, resolve, now).value;
      && |acc| == |Kept(ms)|
      && forall i :: 0 <= i < |acc| ==> BuiltFrom(acc[i], source, Kept(ms)[i], now)
    decreases |ms|
  {
    if ms != [] {
      var n := |ms| - 1;
      var p := ms[..n];
      ScrapeMatchesEmits(source, p, resolve, now);
      ScrapeMatchesPrefix(source, ms, n, resolve, now);
      StepCases(source, ms[n], resolve, now);
      KeptPrefix(ms, n);
      assert ms[..n + 1] == ms;
      var prev := ScrapeMatches(source, p, resolve, now);
      var step := ScrapeStep(source, ms[n], resolve, now);
      if prev.Some? && step.Emit? {
        var acc := prev.value + [step.article];
        assert Kept(ms) == Kept(p) + [ms[n]];
        forall i | 0 <= i < |acc| ensures BuiltFrom(acc[i], source, Kept(ms)[i], now) {
          if i < |prev.value| {
            assert acc[i] == prev.value[i] && Kept(ms)[i] == Kept(p)[i];
          }
        }
      }
    }
  }

  /** `scrapeSource`: the callback given to `.each` pushes an article for
      every node whose trimmed text is longer than ten characters; any
      failure (no page, an href that cannot be resolved) yields []. */
  method ScrapeSource(source: Source, page: Option<seq<Match>>, resolve: Resolver, now: int)
    returns (articles: seq<ScrapedArticle>)
    ensures articles == ScrapedFrom(source, page, resolve, now)
  {
    if page.None? {
      return [];
    }
    var ms := page.value;
    articles := [];
    var i := 0;
    while i < |ms|
      invariant 0 <= i <= |ms|
      invariant ScrapeMatches(source, ms[..i], resolve, now) == Some(articles)
    {
      ScrapeMatchesPrefix(source, ms, i, resolve, now);
      var m := ms[i];
      var title := Trim(m.text);
      if |title| > 10 {
        var url;
        if m.href.Some? && StartsWith(m.href.value, "http") {
          url := m.href.value;
        } else {
          var resolved := resolve(m.href.GetOr(""), source.url);
          if resolved.None? {
            ScrapeMatchesNoneStays(source, ms, i + 1, resolve, now);
            assert ms[..|ms|] == ms;
            return [];
          }
          url := resolved.value;
        }
        articles := articles + [ScrapedArticle(title, url, source.name, source.city, source.country, now)];
      }
      i := i + 1;
    }
    assert ms[..i] == ms;
  }

  /** Once a node has aborted the callback, no later node changes the
      outcome. */
  lemma {:induction false} ScrapeMatchesNoneStays(source: Source, ms: seq<Match>, i: nat, resolve: Resolver, now: int)
    requires i <= |ms|
    requires ScrapeMatches(source, ms[..i], resolve, now).None?
    ensures ScrapeMatches(source, ms[..|ms|], resolve, now).None?
    decreases |ms| - i
  {
    if i < |ms| {
      ScrapeMatchesPrefix(source, ms, i, resolve, now);
      ScrapeMatchesNoneStays(source, ms, i + 1, resolve, now);
    }
  }

  /** What `scrapeSource` promises about its result. */
  lemma ScrapedFromSpec(source: Source, page: Option<seq<Match>>, resolve: Resolver, now: int)
    ensures page.None? ==> ScrapedFrom(source, page, resolve, now) == []
    ensures page.Some? ==> |ScrapedFrom(source, page, resolve, now)| <= |page.value|
    ensures page.Some? && (forall i :: 0 <= i < |page.value| ==> !Aborts(source, page.value[i], resolve)) ==>
      var r := ScrapedFrom(source, page, resolve, now);
      && |r| == |Kept(page.value)|
      && forall i :: 0 <= i < |r| ==> BuiltFrom(r[i], source, Kept(page.value)[i], now)
    ensures forall i :: 0 <= i < |ScrapedFrom(source, page, resolve, now)| ==>
      var a := ScrapedFrom(source, page, resolve, now)[i];
      && |a.title| > 10 && a.source == source.name && a.city == source.city
      && a.country == source.country && a.publishedAt == now
  {
    if page.Some? {
      var ms := page.value;
      ScrapeMatchesAbortIff(source, ms, resolve, now);
      ScrapeMatchesEmits(source, ms, resolve, now);
      var r := ScrapedFrom(source, page, resolve, now);
      if ScrapeMatches(source, ms, resolve, now).Some? {
        forall i | 0 <= i < |r| ensures |r[i].title| > 10 {
          KeptIsLong(ms, i);
        }
      }
    }
  }

  /** Every node in `Kept(ms)` has a trimmed text longer than ten characters. */
  lemma {:induction false} KeptIsLong(ms: seq<Match>, i: nat)
    requires i < |Kept(ms)|
    ensures |Trim(Kept(ms)[i].text)| > 10
    decreases |ms|
  {
    var p := ms[..|ms| - 1];
    if i < |Kept(p)| {
      KeptIsLong(p, i);
      assert Kept(ms)[i] == Kept(p)[i];
    }
  }

  // ---------------------------------------------------------------------
  // scrapeForCountries

  /** The source object built in the inner loop: the registry entry plus the
      country's main city and the country itself. */
  function Stamp(cfg: SourceConfig, country: string): (s: Source)
    ensures s.name == cfg.name && s.url == cfg.url && s.selector == cfg.selector
    ensures s.city == MainCity(country) && s.country == country
  {
    Source(cfg.name, cfg.url, cfg.selector, MainCity(country), country)
  }

  /** The articles of the sources `cfgs` of `country`, in source order. */
  function CountryArticles(cfgs: seq<SourceConfig>, country: string, pages: Pages, resolve: Resolver, now: int): seq<ScrapedArticle>
    decreases |cfgs|
  {
    if cfgs == [] then []
    else
      var s := Stamp(cfgs[|cfgs| - 1], country);
      CountryArticles(cfgs[..|cfgs| - 1], country, pages, resolve, now) + ScrapedFrom(s, pages(s), resolve, now)
  }

  /** What the two loops of `scrapeForCountries` collect in `allArticles`:
      country order, then source order. */
  function SweepArticles(registry: Registry, countries: seq<string>, pages: Pages, resolve: Resolver, now: int): seq<ScrapedArticle>
    decreases |countries|
  {
    if countries == [] then []
    else
      var c := countries[|countries| - 1];
      SweepArticles(registry, countries[..|countries| - 1], pages, resolve, now)
        + CountryArticles(SourcesForCountry(registry, c), c, pages, resolve, now)
  }

  lemma CountryArticlesPrefix(cfgs: seq<SourceConfig>, j: nat, country: string, pages: Pages, resolve: Resolver, now: int)
    requires j < |cfgs|
    ensures CountryArticles(cfgs[..j + 1], country, pages, resolve, now)
         == CountryArticles(cfgs[..j], country, pages, resolve, now)
            + ScrapedFrom(Stamp(cfgs[j], country), pages(Stamp(cfgs[j], country)), resolve, now)
  {
    assert cfgs[..j + 1][..j] == cfgs[..j];
  }

  lemma SweepArticlesPrefix(registry: Registry, countries: seq<string>, i: nat, pages: Pages, resolve: Resolver, now: int)
    requires i < |countries|
    ensures SweepArticles(registry, countries[..i + 1], pages, resolve, now)
         == SweepArticles(registry, countries[..i], pages, resolve, now)
            + CountryArticles(SourcesForCountry(registry, countries[i]), countries[i], pages, resolve, now)
  {
    assert countries[..i + 1][..i] == countries[..i];
  }

  /** A country without registered sources contributes nothing. */
  lemma SweepSkipsUnregistered(registry: Registry, countries: seq<string>, c: string, pages: Pages, resolve: Resolver, now: int)
    requires c !in registry
    ensures SweepArticles(registry, countries + [c], pages, resolve, now)
         == SweepArticles(registry, countries, pages, resolve, now)
  {
    assert (countries + [c])[..|countries|] == countries;
  }

  /** Every article of a country's sources is stamped with that country,
      its main city and the name of one of those sources. */
  lemma {:induction false} CountryArticlesStamped(cfgs: seq<SourceConfig>, country: string, pages: Pages, resolve: Resolver, now: int)
    ensures forall a :: a in CountryArticles(cfgs, country, pages, resolve, now) ==>
      && a.country == country && a.city == MainCity(country) && |a.title| > 10
      && exists k :: 0 <= k < |cfgs| && cfgs[k].name == a.source
    decreases |cfgs|
  {
    if cfgs != [] {
      var p := cfgs[..|cfgs| - 1];
      var s := Stamp(cfgs[|cfgs| - 1], country);
      CountryArticlesStamped(p, country, pages, resolve, now);
      ScrapedFromSpec(s, pages(s), resolve, now);
      forall a | a in CountryArticles(cfgs, country, pages, resolve, now)
        ensures exists k :: 0 <= k < |cfgs| && cfgs[k].name == a.source
      {
        if a in CountryArticles(p, country, pages, resolve, now) {
          var k :| 0 <= k < |p| && p[k].name == a.source;
          assert cfgs[k] == p[k];
        } else {
          assert cfgs[|cfgs| - 1].name == a.source;
        }
      }
    }
  }

  /** Every swept article belongs to one of the countries asked for, is
      stamped with that country's main city, and comes from a source the
      registry lists for that country. */
  lemma {:induction false} SweepStamped(registry: Registry, countries: seq<string>, pages: Pages, resolve: Resolver, now: int)
    ensures forall a :: a in SweepArticles(registry, countries, pages, resolve, now) ==>
      && a.country in countries && a.country in registry && a.city == MainCity(a.country)
      && |a.title| > 10
      && exists k :: 0 <= k < |registry[a.country]| && registry[a.country][k].name == a.source
    decreases |countries|
  {
    if countries != [] {
      var p := countries[..|countries| - 1];
      var c := countries[|countries| - 1];
      SweepStamped(registry, p, pages, resolve, now);
      CountryArticlesStamped(SourcesForCountry(registry, c), c, pages, resolve, now);
      forall a | a in SweepArticles(registry, countries, pages, resolve, now)
        ensures a.country in countries
      {
        if a in SweepArticles(registry, p, pages, resolve, now) {
          assert a.country in p;
        }
      }
    }
  }

  /** The inner loop of `scrapeForCountries`: each source of one country,
      stamped with the country and its main city, scraped in turn. */
  method CollectForCountry(sources: seq<SourceConfig>, country: string, pages: Pages, resolve: Resolver, now: int)
    returns (articles: seq<ScrapedArticle>)
    ensures articles == CountryArticles(sources, country, pages, resolve, now)
  {
    articles := [];
    var j := 0;
    while j < |sources|
      invariant 0 <= j <= |sources|
      invariant articles == CountryArticles(sources[..j], country, pages, resolve, now)
    {
      CountryArticlesPrefix(sources, j, country, pages, resolve, now);
      var source := Stamp(sources[j], country);
      var scraped := ScrapeSource(source, pages(source), resolve, now);
      articles := articles + scraped;
      j := j + 1;
    }
    assert sources[..j] == sources;
  }

  /** `scrapeForCountries` without its final save: the outer loop over the
      countries, skipping those without registered sources. */
  method CollectForCountries(registry: Registry, countries: seq<string>, pages: Pages, resolve: Resolver, now: int)
    returns (allArticles: seq<ScrapedArticle>)
    ensures allArticles == SweepArticles(registry, countries, pages, resolve, now)
  {
    allArticles := [];
    var i := 0;
    while i < |countries|
      invariant 0 <= i <= |countries|
      invariant allArticles == SweepArticles(registry, countries[..i], pages, resolve, now)
    {
      SweepArticlesPrefix(registry, countries, i, pages, resolve, now);
      var country := countries[i];
      var sources := SourcesForCountry(registry, country);
      if |sources| == 0 {
        i := i + 1;
        continue;
      }
      var articles := CollectForCountry(sources, country, pages, resolve, now);
      allArticles := allArticles + articles;
      i := i + 1;
    }
    assert countries[..i] == countries;
  }

  // ---------------------------------------------------------------------
  // saveScrapedArticles

  datatype ScrapedRow = ScrapedRow(
    title: string, source: string, url: string, city: string, country: string,
    coords: Coords, publishedAt: int)

  /** The parameters of one INSERT: the scrape time is replaced by the save
      time, and the coordinates come from the scraper's own table. */
  function ScrapedRowOf(a: ScrapedArticle, now: int): (r: ScrapedRow)
    ensures r.title == a.title && r.source == a.source && r.url == a.url
    ensures r.city == a.city && r.country == a.country
    ensures r.coords == ScraperCityCoordinates(a.city, a.country)
    ensures r.publishedAt == WholeSeconds(now)
  {
    ScrapedRow(a.title, a.source, a.url, a.city, a.country,
      ScraperCityCoordinates(a.city, a.country), WholeSeconds(now))
  }

  /** Every scraped article reaches `execute`; its verdict is the database's
      answer. */
  function ScrapedVerdicts(n: nat, outcome: Outcomes): (vs: seq<Verdict>)
    ensures |vs| == n
    ensures forall j :: 0 <= j < n ==> vs[j] == Classify(outcome(j))
  {
    seq(n, j requires 0 <= j < n => Classify(outcome(j)))
  }

  function ScrapedRows(articles: seq<ScrapedArticle>, now: int): (rows: seq<ScrapedRow>)
    ensures |rows| == |articles|
    ensures forall j :: 0 <= j < |articles| ==> rows[j] == ScrapedRowOf(articles[j], now)
  {
    seq(|articles|, j requires 0 <= j < |articles| => ScrapedRowOf(articles[j], now))
  }

  /** `saveScrapedArticles`: one INSERT per article on a single connection,
      released in the `finally`. `None` is the call that throws because the
      pool handed out no connection. */
  method SaveScrapedArticles(pool: ConnectionPool, available: bool, articles: seq<ScrapedArticle>,
                             now: int, outcome: Outcomes)
    returns (report: Option<BatchReport<ScrapedRow>>)
    modifies pool
    ensures pool.checkedOut == old(pool.checkedOut)
    ensures report.None? <==> !available
    ensures report.Some? ==>
      report.value == BatchReport(TallyOf(ScrapedVerdicts(|articles|, outcome)), ScrapedRows(articles, now))
  {
    var ok := pool.GetConnection(available);
    if !ok {
      return None;
    }
    var tally := Tally(0, 0, 0);
    var executed: seq<ScrapedRow> := [];
    var j := 0;
    while j < |articles|
      invariant 0 <= j <= |articles|
      invariant pool.checkedOut == old(pool.checkedOut) + 1
      invariant tally == TallyOf(ScrapedVerdicts(j, outcome))
      invariant executed == ScrapedRows(articles[..j], now)
    {
      var row := ScrapedRowOf(articles[j], now);
      executed := executed + [row];
      var verdict := Classify(outcome(j));
      assert ScrapedVerdicts(j + 1, outcome) == ScrapedVerdicts(j, outcome) + [verdict];
      TallySnoc(ScrapedVerdicts(j, outcome), verdict);
      tally := Bump(tally, verdict);
      assert ScrapedRows(articles[..j + 1], now) == ScrapedRows(articles[..j], now) + [row];
      j := j + 1;
    }
    assert articles[..j] == articles;
    pool.Release();
    report := Some(BatchReport(tally, executed));
  }

  /** `scrapeForCountries`: collect, then save everything in one batch. When
      the save throws, so does this call, and `stored` is `None`. */
  method ScrapeForCountries(pool: ConnectionPool, registry: Registry, countries: seq<string>,
                            pages: Pages, resolve: Resolver, now: int,
                            available: bool, outcome: Outcomes)
    returns (articles: seq<ScrapedArticle>, stored: Option<BatchReport<ScrapedRow>>)
    modifies pool
    ensures pool.checkedOut == old(pool.checkedOut)
    ensures articles == SweepArticles(registry, countries, pages, resolve, now)
    ensures stored.None? <==> !available
    ensures stored.Some? ==>
      stored.value == BatchReport(TallyOf(ScrapedVerdicts(|articles|, outcome)), ScrapedRows(articles, now))
  {
    articles := CollectForCountries(registry, countries, pages, resolve, now);
    stored := SaveScrapedArticles(pool, available, articles, now, outcome);
  }
}
