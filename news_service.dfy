/**
  newsService.js: merging the two NewsAPI result lists of a location
  (`getLocalNews`), saving them (`saveArticles`), the coordinate and
  country-code tables, the stored-article queries and one tick of the
  aggregation timer (`aggregateNews`).
  The HTTP calls are inputs: what `getNewsByCountry` and `searchNewsByCity`
  resolve with (their `[]` on failure included) is a function of the query
  they send. Date parsing is abstract: an article's `publishedAt` is
  missing, unparsable, or an instant in milliseconds.
*/
module NewsService {
  import opened Common
  import opened Sorting
  import opened Database
  import opened UserLocationService
  import opened ScraperService

  // ---------------------------------------------------------------------
  // Articles as NewsAPI returns them

  /** The `publishedAt` field: absent or falsy, a string `new Date` cannot
      parse, or the instant it denotes, in milliseconds. */
  datatype PubDate = Missing | Invalid | At(ms: int)

  datatype ApiArticle = ApiArticle(
    title: Option<string>, description: Option<string>, urlToImage: Option<string>,
    sourceName: Option<string>, url: Option<string>, publishedAt: PubDate)

  function TitleOf(a: ApiArticle): Option<string> {
    a.title
  }

  function Titles(s: seq<ApiArticle>): (t: seq<Option<string>>)
    ensures |t| == |s|
    ensures forall i :: 0 <= i < |s| ==> t[i] == s[i].title
  {
    seq(|s|, i requires 0 <= i < |s| => s[i].title)
  }

  // ---------------------------------------------------------------------
  // getLocalNews: dedup by title

  /** `map.set(a.title, a)` on the values of a `Map`, kept in insertion
      order: a title already present keeps its place and takes the new
      article; a new title goes last. */
  function SetByTitle(m: seq<ApiArticle>, a: ApiArticle): seq<ApiArticle> {
    var ts := Titles(m);
    if a.title in ts then m[IndexOf(ts, a.title) := a] else m + [a]
  }

  /** `Array.from(new Map(s.map(item => [item.title, item])).values())`. */
  function UniqueByTitle(s: seq<ApiArticle>): seq<ApiArticle>
    decreases |s|
  {
    if s == [] then [] else SetByTitle(UniqueByTitle(s[..|s| - 1]), s[|s| - 1])
  }

  /** The article an in-order pass would leave last under title `t`. */
  function LastWithTitle(s: seq<ApiArticle>, t: Option<string>): (r: Option<ApiArticle>)
    ensures r.Some? ==> r.value in s && r.value.title == t
    ensures r.None? <==> t !in Titles(s)
    decreases |s|
  {
    if s == [] then None
    else if s[|s| - 1].title == t then Some(s[|s| - 1])
    else
      var p := s[..|s| - 1];
      assert Titles(s) == Titles(p) + [s[|s| - 1].title];
      LastWithTitle(p, t)
  }

  lemma TitlesOfSetByTitle(m: seq<ApiArticle>, a: ApiArticle)
    ensures Titles(SetByTitle(m, a)) == if a.title in Titles(m) then Titles(m) else Titles(m) + [a.title]
  {
    var ts := Titles(m);
    if a.title in ts {
      var r := m[IndexOf(ts, a.title) := a];
      assert Titles(r) == ts by {
        forall k | 0 <= k < |r| ensures Titles(r)[k] == ts[k] { }
      }
    } else {
      assert Titles(m + [a]) == ts + [a.title];
    }
  }

  lemma TitlesSnoc(s: seq<ApiArticle>)
    requires s != []
    ensures Titles(s) == Titles(s[..|s| - 1]) + [s[|s| - 1].title]
  {
  }

  /** The titles of the deduplicated list are the distinct titles of the
      input, each at the position of its first occurrence. */
  lemma {:induction false} UniqueByTitleTitles(s: seq<ApiArticle>)
    ensures Titles(UniqueByTitle(s)) == Distinct(Titles(s))
    decreases |s|
  {
    if s != [] {
      var p := s[..|s| - 1];
      var x := s[|s| - 1];
      UniqueByTitleTitles(p);
      TitlesOfSetByTitle(UniqueByTitle(p), x);
      TitlesSnoc(s);
      DistinctSnoc(Titles(p), x.title);
    }
  }

  /** What the dedup keeps under each title is the last article with that
      title. */
  lemma {:induction false} UniqueByTitleKeepsLast(s: seq<ApiArticle>)
    ensures forall i :: 0 <= i < |UniqueByTitle(s)| ==>
      LastWithTitle(s, UniqueByTitle(s)[i].title) == Some(UniqueByTitle(s)[i])
    decreases |s|
  {
    if s != [] {
      var p := s[..|s| - 1];
      var x := s[|s| - 1];
      UniqueByTitleKeepsLast(p);
      UniqueByTitleTitles(p);
      var r0 := UniqueByTitle(p);
      var ts := Titles(r0);
      assert NoDup(ts);
      var r := UniqueByTitle(s);
      assert r == SetByTitle(r0, x);
      forall i | 0 <= i < |r| ensures LastWithTitle(s, r[i].title) == Some(r[i]) {
        if x.title in ts {
          var idx := IndexOf(ts, x.title);
          if i != idx {
            assert r[i] == r0[i];
            assert ts[i] != ts[idx];
          }
        } else if i < |r0| {
          assert r[i] == r0[i];
          assert ts[i] == r0[i].title;
        }
      }
    }
  }

  /** Tie-break key of the sort: a parsed date, or none. */
  function NewsKey(a: ApiArticle): Option<int> {
    match a.publishedAt
    case At(ms) => Some(ms)
    case _ => None
  }

  /** `(a, b) => new Date(b.publishedAt) - new Date(a.publishedAt)`: newer
      dates first; articles without a usable date go last. */
  predicate NewerFirst(x: Option<int>, y: Option<int>) {
    if x.Some? && y.Some? then x.value >= y.value else y.None?
  }

  lemma NewerFirstTotal()
    ensures TotalOrder(NewerFirst)
  {
  }

  /** `getLocalNews` on the lists the two fetches returned. */
  function LocalNews(apiNews: seq<ApiArticle>, searchNews: seq<ApiArticle>): seq<ApiArticle> {
    Sort(UniqueByTitle(apiNews + searchNews), NewsKey, NewerFirst)
  }

  /** The deduplicated list has no title twice, keeps every title of its
      input with the last article carrying it, and is no longer than its
      input. */
  lemma UniqueByTitleSpec(s: seq<ApiArticle>)
    ensures DistinctBy(UniqueByTitle(s), TitleOf)
    ensures forall j :: 0 <= j < |s| ==> s[j].title in Titles(UniqueByTitle(s))
    ensures forall i :: 0 <= i < |UniqueByTitle(s)| ==>
      LastWithTitle(s, UniqueByTitle(s)[i].title) == Some(UniqueByTitle(s)[i])
    ensures |UniqueByTitle(s)| <= |s|
  {
    var u := UniqueByTitle(s);
    UniqueByTitleTitles(s);
    UniqueByTitleKeepsLast(s);
    assert |u| == |Titles(u)| <= |Titles(s)|;
    forall i, j | 0 <= i < j < |u| ensures TitleOf(u[i]) != TitleOf(u[j]) {
      assert Titles(u)[i] != Titles(u)[j];
    }
    forall j | 0 <= j < |s| ensures s[j].title in Titles(u) {
      assert Titles(s)[j] == s[j].title;
    }
  }

  /** What `getLocalNews` promises: no title twice; every title of either
      list is present and carries the last article with that title; no
      more articles than were fetched; newest first; and articles with the
      same date stay in the order of their titles' first occurrences. */
  lemma LocalNewsSpec(apiNews: seq<ApiArticle>, searchNews: seq<ApiArticle>)
    ensures var all, r := apiNews + searchNews, LocalNews(apiNews, searchNews);
      && DistinctBy(r, TitleOf)
      && (forall j :: 0 <= j < |all| ==> exists i :: 0 <= i < |r| && r[i].title == all[j].title)
      && (forall i :: 0 <= i < |r| ==> LastWithTitle(all, r[i].title) == Some(r[i]))
      && |r| <= |apiNews| + |searchNews|
      && SortedBy(r, NewsKey, NewerFirst)
      && (forall k :: WithKey(r, NewsKey, k) == WithKey(UniqueByTitle(all), NewsKey, k))
  {
    var all := apiNews + searchNews;
    var u := UniqueByTitle(all);
    var r := LocalNews(apiNews, searchNews);
    UniqueByTitleSpec(all);
    NewerFirstTotal();
    SortDistinctBy(u, NewsKey, NewerFirst, TitleOf);
    SortSorted(u, NewsKey, NewerFirst);
    forall k ensures WithKey(r, NewsKey, k) == WithKey(u, NewsKey, k) {
      SortStable(u, NewsKey, NewerFirst, k);
    }
    forall j | 0 <= j < |all| ensures exists i :: 0 <= i < |r| && r[i].title == all[j].title {
      var m :| 0 <= m < |u| && Titles(u)[m] == all[j].title;
      InMultisetInSeq(u[m], u, r);
      var i :| 0 <= i < |r| && r[i] == u[m];
    }
    forall i | 0 <= i < |r| ensures LastWithTitle(all, r[i].title) == Some(r[i]) {
      InMultisetInSeq(r[i], u, r);
      var m :| 0 <= m < |u| && u[m] == r[i];
    }
  }

  /** The titles of the deduplicated list come in the order of their first
      occurrences in the concatenation. */
  lemma UniqueByTitleOrder(s: seq<ApiArticle>)
    ensures forall i, j :: 0 <= i < j < |UniqueByTitle(s)| ==>
      && UniqueByTitle(s)[i].title in Titles(s) && UniqueByTitle(s)[j].title in Titles(s)
      && IndexOf(Titles(s), UniqueByTitle(s)[i].title) < IndexOf(Titles(s), UniqueByTitle(s)[j].title)
  {
    UniqueByTitleTitles(s);
    DistinctFirstOccurrenceOrder(Titles(s));
    var u := UniqueByTitle(s);
    forall i, j | 0 <= i < j < |u|
      ensures u[i].title in Titles(s) && u[j].title in Titles(s)
      ensures IndexOf(Titles(s), u[i].title) < IndexOf(Titles(s), u[j].title)
    {
      assert Distinct(Titles(s))[i] == u[i].title && Distinct(Titles(s))[j] == u[j].title;
    }
  }

  // ---------------------------------------------------------------------
  // Lookup tables

  const CityCoords: map<string, Coords> := map[
    "Accra-Ghana" := Coords(56037, -1870),
    "Lagos-Nigeria" := Coords(65244, 33792),
    "New York-USA" := Coords(407128, -740060),
    "London-UK" := Coords(515074, -1278),
    "Toronto-Canada" := Coords(436532, -793832),
    "Nairobi-Kenya" := Coords(-12921, 368219),
    "Cairo-Egypt" := Coords(300444, 312357),
    "Kampala-Uganda" := Coords(3476, 325825),
    "Dar es Salaam-Tanzania" := Coords(-68000, 392833),
    "Addis Ababa-Ethiopia" := Coords(90320, 387469)
  ]

  /** `getCityCoordinates`: the entry under `${city}-${country}`, or (0, 0). */
  function CityCoordinates(city: string, country: string): Coords {
    var key := city + "-" + country;
    if key in CityCoords then CityCoords[key] else Origin
  }

  /** The same table keyed by the pair itself. */
  const KnownCities: map<(string, string), Coords> := map[
    ("Accra", "Ghana") := Coords(56037, -1870),
    ("Lagos", "Nigeria") := Coords(65244, 33792),
    ("New York", "USA") := Coords(407128, -740060),
    ("London", "UK") := Coords(515074, -1278),
    ("Toronto", "Canada") := Coords(436532, -793832),
    ("Nairobi", "Kenya") := Coords(-12921, 368219),
    ("Cairo", "Egypt") := Coords(300444, 312357),
    ("Kampala", "Uganda") := Coords(3476, 325825),
    ("Dar es Salaam", "Tanzania") := Coords(-68000, 392833),
    ("Addis Ababa", "Ethiopia") := Coords(90320, 387469)
  ]

  /** One entry of the table: a key built from a pair matches the key of
      a listed pair exactly when the pairs are equal. */
  lemma CityEntry(city: string, country: string, c: string, k: string, key: string)
    requires '-' !in c && '-' !in k && key == c + "-" + k
    ensures city + "-" + country == key <==> city == c && country == k
  {
    if city + "-" + country == key {
      DashKeyUnique(city, country, c, k);
    }
  }

  /** Accra, Lagos, New York: each finds its own entry. */
  lemma ListedCityFound1(city: string, country: string)
    requires (city, country) == ("Accra", "Ghana") || (city, country) == ("Lagos", "Nigeria") || (city, country) == ("New York", "USA")
    ensures city + "-" + country in CityCoords
    ensures CityCoords[city + "-" + country] == KnownCities[(city, country)]
  {
    if (city, country) == ("Accra", "Ghana") {
      assert city + "-" + country == "Accra-Ghana";
    } else if (city, country) == ("Lagos", "Nigeria") {
      assert city + "-" + country == "Lagos-Nigeria";
    } else {
      assert city + "-" + country == "New York-USA";
    }
  }

  /** London, Toronto: each finds its own entry. */
  lemma ListedCityFound2(city: string, country: string)
    requires (city, country) == ("London", "UK") || (city, country) == ("Toronto", "Canada")
    ensures city + "-" + country in CityCoords
    ensures CityCoords[city + "-" + country] == KnownCities[(city, country)]
  {
    if (city, country) == ("London", "UK") {
      assert city + "-" + country == "London-UK";
    } else {
      assert city + "-" + country == "Toronto-Canada";
    }
  }

  /** Nairobi, Cairo, Kampala: each finds its own entry. */
  lemma ListedCityFound3(city: string, country: string)
    requires (city, country) == ("Nairobi", "Kenya") || (city, country) == ("Cairo", "Egypt") || (city, country) == ("Kampala", "Uganda")
    ensures city + "-" + country in CityCoords
    ensures CityCoords[city + "-" + country] == KnownCities[(city, country)]
  {
    if (city, country) == ("Nairobi", "Kenya") {
      assert city + "-" + country == "Nairobi-Kenya";
    } else if (city, country) == ("Cairo", "Egypt") {
      assert city + "-" + country == "Cairo-Egypt";
    } else {
      assert city + "-" + country == "Kampala-Uganda";
    }
  }

  /** Dar es Salaam, Addis Ababa: each finds its own entry. */
  lemma ListedCityFound4(city: string, country: string)
    requires (city, country) == ("Dar es Salaam", "Tanzania") || (city, country) == ("Addis Ababa", "Ethiopia")
    ensures city + "-" + country in CityCoords
    ensures CityCoords[city + "-" + country] == KnownCities[(city, country)]
  {
    if (city, country) == ("Dar es Salaam", "Tanzania") {
      assert city + "-" + country == "Dar es Salaam-Tanzania";
    } else {
      assert city + "-" + country == "Addis Ababa-Ethiopia";
    }
  }

  /** Every listed pair finds its own entry. */
  lemma ListedCityFound(city: string, country: string)
    requires (city, country) in KnownCities
    ensures city + "-" + country in CityCoords
    ensures CityCoords[city + "-" + country] == KnownCities[(city, country)]
  {
    if (city, country) == ("Accra", "Ghana") || (city, country) == ("Lagos", "Nigeria") || (city, country) == ("New York", "USA") {
      ListedCityFound1(city, country);
    } else if (city, country) == ("London", "UK") || (city, country) == ("Toronto", "Canada") {
      ListedCityFound2(city, country);
    } else if (city, country) == ("Nairobi", "Kenya") || (city, country) == ("Cairo", "Egypt") || (city, country) == ("Kampala", "Uganda") {
      ListedCityFound3(city, country);
    } else {
      ListedCityFound4(city, country);
    }
  }

  /** The keys of Accra, Lagos, New York come from their listed pairs. */
  lemma FoundCityListed1(city: string, country: string)
    requires city + "-" + country == "Accra-Ghana" || city + "-" + country == "Lagos-Nigeria" || city + "-" + country == "New York-USA"
    ensures (city, country) in KnownCities
  {
    var key := city + "-" + country;
    if key == "Accra-Ghana" {
      CityEntry(city, country, "Accra", "Ghana", key);
    } else if key == "Lagos-Nigeria" {
      CityEntry(city, country, "Lagos", "Nigeria", key);
    } else {
      CityEntry(city, country, "New York", "USA", key);
    }
  }

  /** The keys of London, Toronto come from their listed pairs. */
  lemma FoundCityListed2(city: string, country: string)
    requires city + "-" + country == "London-UK" || city + "-" + country == "Toronto-Canada"
    ensures (city, country) in KnownCities
  {
    var key := city + "-" + country;
    if key == "London-UK" {
      CityEntry(city, country, "London", "UK", key);
    } else {
      CityEntry(city, country, "Toronto", "Canada", key);
    }
  }

  /** The keys of Nairobi, Cairo, Kampala come from their listed pairs. */
  lemma FoundCityListed3(city: string, country: string)
    requires city + "-" + country == "Nairobi-Kenya" || city + "-" + country == "Cairo-Egypt" || city + "-" + country == "Kampala-Uganda"
    ensures (city, country) in KnownCities
  {
    var key := city + "-" + country;
    if key == "Nairobi-Kenya" {
      CityEntry(city, country, "Nairobi", "Kenya", key);
    } else if key == "Cairo-Egypt" {
      CityEntry(city, country, "Cairo", "Egypt", key);
    } else {
      CityEntry(city, country, "Kampala", "Uganda", key);
    }
  }

  /** The keys of Dar es Salaam, Addis Ababa come from their listed pairs. */
  lemma FoundCityListed4(city: string, country: string)
    requires city + "-" + country == "Dar es Salaam-Tanzania" || city + "-" + country == "Addis Ababa-Ethiopia"
    ensures (city, country) in KnownCities
  {
    var key := city + "-" + country;
    if key == "Dar es Salaam-Tanzania" {
      CityEntry(city, country, "Dar es Salaam", "Tanzania", key);
    } else {
      CityEntry(city, country, "Addis Ababa", "Ethiopia", key);
    }
  }

  /** Every key of the table is the key of a listed pair. */
  lemma FoundCityListed(city: string, country: string)
    requires city + "-" + country in CityCoords
    ensures (city, country) in KnownCities
  {
    var key := city + "-" + country;
    if key == "Accra-Ghana" || key == "Lagos-Nigeria" || key == "New York-USA" {
      FoundCityListed1(city, country);
    } else if key == "London-UK" || key == "Toronto-Canada" {
      FoundCityListed2(city, country);
    } else if key == "Nairobi-Kenya" || key == "Cairo-Egypt" || key == "Kampala-Uganda" {
      FoundCityListed3(city, country);
    } else {
      FoundCityListed4(city, country);
    }
  }

  /** Joining city and country with a dash confuses no two pairs: the
      lookup finds the entry of exactly the ten listed (city, country)
      pairs and (0, 0) for every other pair, and no listed city lies at
      (0, 0). */
  lemma CityCoordinatesByPair(city: string, country: string)
    ensures CityCoordinates(city, country)
         == if (city, country) in KnownCities then KnownCities[(city, country)] else Origin
    ensures CityCoordinates(city, country) != Origin <==> (city, country) in KnownCities
  {
    if (city, country) in KnownCities {
      ListedCityFound(city, country);
    } else if city + "-" + country in CityCoords {
      FoundCityListed(city, country);
    }
  }

  const CountryCodes: map<string, string> := map[
    "Nigeria" := "ng",
    "Ghana" := "gh",
    "USA" := "us",
    "United States" := "us",
    "UK" := "gb",
    "United Kingdom" := "gb",
    "Canada" := "ca",
    "India" := "in",
    "Australia" := "au",
    "Germany" := "de",
    "France" := "fr",
    "Japan" := "jp",
    "China" := "cn",
    "Brazil" := "br",
    "Mexico" := "mx",
    "South Africa" := "za",
    "Kenya" := "ke",
    "Egypt" := "eg",
    "Uganda" := "ug",
    "Tanzania" := "tz",
    "Ethiopia" := "et"
  ]

  /** `getCountryCode`: the mapped code, or 'us'. */
  function CountryCode(country: string): (code: string)
    ensures country in CountryCodes ==> code == CountryCodes[country]
    ensures country !in CountryCodes ==> code == "us"
    ensures |code| == 2
  {
    if country in CountryCodes then CountryCodes[country] else "us"
  }

  /** 'us' is the code of the two names of the United States and of every
      country the table does not know. */
  lemma CountryCodeUsIff(country: string)
    ensures CountryCode(country) == "us" <==>
      country == "USA" || country == "United States" || country !in CountryCodes
  {
  }

  // ---------------------------------------------------------------------
  // saveArticles

  /** The parameters of the INSERT of one article. */
  datatype NewsRow = NewsRow(
    title: string, description: string, imageUrl: string, source: string, url: string,
    publishedAt: int, city: string, country: string, coords: Coords)

  /** The row for an article whose date formats: missing text fields become
      '', a missing or empty source name 'Unknown'; a missing date is the
      save time; times keep whole seconds; the coordinates are the city's. */
  function NewsRowOf(a: ApiArticle, city: string, country: string, coords: Coords, now: int): (r: NewsRow)
    requires !a.publishedAt.Invalid?
    ensures a.title.Some? ==> r.title == a.title.value
    ensures a.title.None? ==> r.title == ""
    ensures a.description.Some? ==> r.description == a.description.value
    ensures a.description.None? ==> r.description == ""
    ensures a.urlToImage.Some? ==> r.imageUrl == a.urlToImage.value
    ensures a.urlToImage.None? ==> r.imageUrl == ""
    ensures a.url.Some? ==> r.url == a.url.value
    ensures a.url.None? ==> r.url == ""
    ensures a.sourceName.Some? && a.sourceName.value != "" ==> r.source == a.sourceName.value
    ensures a.sourceName.None? || a.sourceName.value == "" ==> r.source == "Unknown"
    ensures a.publishedAt.Missing? ==> r.publishedAt == WholeSeconds(now)
    ensures a.publishedAt.At? ==> r.publishedAt <= a.publishedAt.ms < r.publishedAt + 1000
    ensures r.city == city && r.country == country && r.coords == coords
  {
    var published := if a.publishedAt.At? then WholeSeconds(a.publishedAt.ms) else WholeSeconds(now);
    NewsRow(OrDefault(a.title, ""), OrDefault(a.description, ""), OrDefault(a.urlToImage, ""),
      OrDefault(a.sourceName, "Unknown"), OrDefault(a.url, ""), published, city, country, coords)
  }

  /** `new Date(x).toISOString()` throws a RangeError for an unparsable date,
      before the INSERT; the inner `catch` counts it as an error. Otherwise
      the database's answer decides. */
  function ArticleVerdict(a: ApiArticle, o: ExecOutcome): (v: Verdict)
    ensures a.publishedAt.Invalid? ==> v == Failed
  {
    if a.publishedAt.Invalid? then Failed else Classify(o)
  }

  function ArticleVerdicts(articles: seq<ApiArticle>, outcome: Outcomes): (vs: seq<Verdict>)
    ensures |vs| == |articles|
    ensures forall j :: 0 <= j < |articles| ==> vs[j] == ArticleVerdict(articles[j], outcome(j))
  {
    seq(|articles|, j requires 0 <= j < |articles| => ArticleVerdict(articles[j], outcome(j)))
  }

  /** The rows handed to `execute`, in article order: one per article whose
      date formats. */
  function ExecutedNewsRows(articles: seq<ApiArticle>, city: string, country: string, coords: Coords, now: int)
    : (rows: seq<NewsRow>)
    ensures |rows| <= |articles|
    ensures forall k :: 0 <= k < |rows| ==> rows[k].city == city && rows[k].country == country && rows[k].coords == coords
    ensures (forall j :: 0 <= j < |articles| ==> !articles[j].publishedAt.Invalid?) ==> |rows| == |articles|
    decreases |articles|
  {
    if articles == [] then []
    else
      var n := |articles| - 1;
      var a := articles[n];
      ExecutedNewsRows(articles[..n], city, country, coords, now)
        + (if a.publishedAt.Invalid? then [] else [NewsRowOf(a, city, country, coords, now)])
  }

  /** What `saveArticles` does over one batch: the counters of the
      verdicts, and the rows executed, all at the coordinates the city
      table gives once for the batch. */
  function SaveReport(articles: seq<ApiArticle>, city: string, country: string, now: int, outcome: Outcomes)
    : (b: BatchReport<NewsRow>)
    ensures forall k :: 0 <= k < |b.executed| ==> b.executed[k].coords == CityCoordinates(city, country)
  {
    BatchReport(TallyOf(ArticleVerdicts(articles, outcome)),
      ExecutedNewsRows(articles, city, country, CityCoordinates(city, country), now))
  }

  /** Every article lands in exactly one of the three counters. */
  lemma SaveReportTotal(articles: seq<ApiArticle>, city: string, country: string, now: int, outcome: Outcomes)
    ensures var t := SaveReport(articles, city, country, now, outcome).tally;
      t.saved + t.duplicates + t.errors == |articles|
  {
    TallyTotal(ArticleVerdicts(articles, outcome));
  }

  /** One more article: one more verdict in the tally. */
  lemma TallyStep(articles: seq<ApiArticle>, j: nat, outcome: Outcomes, tally: Tally)
    requires j < |articles|
    requires tally == TallyOf(ArticleVerdicts(articles[..j], outcome))
    ensures Bump(tally, ArticleVerdict(articles[j], outcome(j))) == TallyOf(ArticleVerdicts(articles[..j + 1], outcome))
  {
    assert ArticleVerdicts(articles[..j + 1], outcome)
        == ArticleVerdicts(articles[..j], outcome) + [ArticleVerdict(articles[j], outcome(j))];
    TallySnoc(ArticleVerdicts(articles[..j], outcome), ArticleVerdict(articles[j], outcome(j)));
  }

  /** One more article: one more row when its date formats. */
  lemma RowsStep(articles: seq<ApiArticle>, j: nat, city: string, country: string, coords: Coords, now: int)
    requires j < |articles|
    ensures ExecutedNewsRows(articles[..j], city, country, coords, now)
            + (if articles[j].publishedAt.Invalid? then [] else [NewsRowOf(articles[j], city, country, coords, now)])
         == ExecutedNewsRows(articles[..j + 1], city, country, coords, now)
  {
    assert articles[..j + 1][..j] == articles[..j];
  }

  /** The `for` loop of `saveArticles`: one INSERT per article whose date
      formats, each answer counted. */
  method SaveEach(articles: seq<ApiArticle>, city: string, country: string, coords: Coords, now: int,
                  outcome: Outcomes)
    returns (tally: Tally, executed: seq<NewsRow>)
    ensures tally == TallyOf(ArticleVerdicts(articles, outcome))
    ensures executed == ExecutedNewsRows(articles, city, country, coords, now)
  {
    tally := Tally(0, 0, 0);
    executed := [];
    var j := 0;
    while j < |articles|
      invariant 0 <= j <= |articles|
      invariant tally == TallyOf(ArticleVerdicts(articles[..j], outcome))
      invariant executed == ExecutedNewsRows(articles[..j], city, country, coords, now)
    {
      var a := articles[j];
      var verdict;
      if a.publishedAt.Invalid? {
        verdict := Failed;
      } else {
        var row := NewsRowOf(a, city, country, coords, now);
        executed := executed + [row];
        verdict := Classify(outcome(j));
      }
      TallyStep(articles, j, outcome, tally);
      RowsStep(articles, j, city, country, coords, now);
      tally := Bump(tally, verdict);
      j := j + 1;
    }
    assert articles[..j] == articles;
  }

  /** `saveArticles`: the city's coordinates, then the counting loop on one
      connection, released in the `finally`. `None` is the call that throws
      because the pool handed out no connection. */
  method SaveArticles(pool: ConnectionPool, available: bool, articles: seq<ApiArticle>,
                      city: string, country: string, now: int, outcome: Outcomes)
    returns (report: Option<BatchReport<NewsRow>>)
    modifies pool
    ensures pool.checkedOut == old(pool.checkedOut)
    ensures report.None? <==> !available
    ensures report.Some? ==> report.value == SaveReport(articles, city, country, now, outcome)
  {
    var ok := pool.GetConnection(available);
    if !ok {
      return None;
    }
    var coords := CityCoordinates(city, country);
    var tally, executed := SaveEach(articles, city, country, coords, now, outcome);
    pool.Release();
    report := Some(BatchReport(tally, executed));
  }

  // ---------------------------------------------------------------------
  // Queries over the stored articles

  /** A row of the `articles` table, as far as the queries look at it. */
  datatype StoredArticle = StoredArticle(
    id: nat, title: string, url: string, city: string, country: string,
    latitude: Option<int>, longitude: Option<int>, publishedAt: int)

  function PublishedAt(a: StoredArticle): int {
    a.publishedAt
  }

  predicate Located(a: StoredArticle) {
    a.latitude.Some? && a.longitude.Some?
  }

  /** The SELECT of `getNewsForLocation`: located rows, newest first, at
      most `limit * 10` of them. */
  function LocationWindow(rows: seq<StoredArticle>, limit: int): seq<StoredArticle> {
    Limited(Sort(Filter(rows, Located), PublishedAt, AtLeast), limit * 10)
  }

  /** `getNewsForLocation`: the window, then the rows within `radius` of the
      point by the distance function `dist`. */
  function NewsForLocation(rows: seq<StoredArticle>, lat: int, lng: int, radius: real, limit: int,
                           dist: (int, int, int, int) -> real): seq<StoredArticle>
  {
    Filter(LocationWindow(rows, limit), Nearby(lat, lng, radius, dist))
  }

  function Nearby(lat: int, lng: int, radius: real, dist: (int, int, int, int) -> real): StoredArticle -> bool {
    (a: StoredArticle) => WithinRadius(a, lat, lng, radius, dist)
  }

  /** The JavaScript filter of `getNewsForLocation`: a located row no
      farther than `radius` from the point. */
  predicate WithinRadius(a: StoredArticle, lat: int, lng: int, radius: real, dist: (int, int, int, int) -> real) {
    Located(a) && dist(lat, lng, a.latitude.value, a.longitude.value) <= radius
  }

  /** The window the radius filter runs over is the `limit * 10` newest
      located rows: a top-rows query. */
  lemma LocationWindowSpec(rows: seq<StoredArticle>, limit: int)
    ensures TopRows(rows, Located, PublishedAt, AtLeast, limit * 10, LocationWindow(rows, limit))
  {
    AtLeastTotal();
    QueryIsTop(rows, Located, PublishedAt, AtLeast, limit * 10);
  }

  /** What `getNewsForLocation` promises: stored rows only, each within the
      radius, newest first, at most ten times `limit`; every row of the
      window within the radius; a row within the radius that is not
      returned is no newer than any row of the window, hence than any row
      returned; and when every located row fits the window, every row
      within the radius. */
  lemma NewsForLocationSpec(rows: seq<StoredArticle>, lat: int, lng: int, radius: real, limit: int,
                            dist: (int, int, int, int) -> real)
    ensures FilteredTop(rows, Located, PublishedAt, AtLeast, limit * 10, LocationWindow(rows, limit),
                        Nearby(lat, lng, radius, dist), NewsForLocation(rows, lat, lng, radius, limit, dist))
  {
    LocationWindowSpec(rows, limit);
    FilterOfTop(rows, Located, PublishedAt, AtLeast, limit * 10, LocationWindow(rows, limit),
                Nearby(lat, lng, radius, dist));
  }

  predicate InCityOf(a: StoredArticle, city: string) {
    ToLower(a.city) == ToLower(city)
  }

  /** `getNewsByCity`: `WHERE LOWER(city) = LOWER(?)`, newest first, at most
      `limit` rows. */
  function NewsByCity(rows: seq<StoredArticle>, city: string, limit: int): seq<StoredArticle> {
    Limited(Sort(Filter(rows, (a: StoredArticle) => InCityOf(a, city)), PublishedAt, AtLeast), limit)
  }

  /** The city's news are its `limit` newest stored articles. */
  lemma NewsByCitySpec(rows: seq<StoredArticle>, city: string, limit: int)
    ensures TopRows(rows, (a: StoredArticle) => InCityOf(a, city), PublishedAt, AtLeast, limit,
                    NewsByCity(rows, city, limit))
  {
    AtLeastTotal();
    QueryIsTop(rows, (a: StoredArticle) => InCityOf(a, city), PublishedAt, AtLeast, limit);
  }

  predicate AnyArticle(a: StoredArticle) {
    true
  }

  /** `getLatestNews`: every row, newest first, at most `limit`. */
  function LatestNews(rows: seq<StoredArticle>, limit: int): seq<StoredArticle> {
    Limited(Sort(rows, PublishedAt, AtLeast), limit)
  }

  /** The latest news are the `limit` newest stored articles: a top-rows
      query with no `WHERE`. */
  lemma LatestNewsSpec(rows: seq<StoredArticle>, limit: int)
    ensures TopRows(rows, AnyArticle, PublishedAt, AtLeast, limit, LatestNews(rows, limit))
  {
    FilterAll(rows, AnyArticle);
    AtLeastTotal();
    QueryIsTop(rows, AnyArticle, PublishedAt, AtLeast, limit);
  }

  /** `getNewsForLocation` over the table `rows`: a pool without a
      connection makes the call throw (the `await` is outside the `try`); a
      failing SELECT is caught and answers []. */
  method GetNewsForLocation(pool: ConnectionPool, available: bool, executes: bool, rows: seq<StoredArticle>,
                            lat: int, lng: int, radius: real, limit: int, dist: (int, int, int, int) -> real)
    returns (threw: bool, news: seq<StoredArticle>)
    modifies pool
    ensures pool.checkedOut == old(pool.checkedOut)
    ensures threw <==> !available
    ensures news == if available && executes then NewsForLocation(rows, lat, lng, radius, limit, dist) else []
  {
    var ok := pool.GetConnection(available);
    if !ok {
      return true, [];
    }
    news := if executes then NewsForLocation(rows, lat, lng, radius, limit, dist) else [];
    pool.Release();
    threw := false;
  }

  /** `getNewsByCity` over the table `rows`, with the same failure paths. */
  method GetNewsByCity(pool: ConnectionPool, available: bool, executes: bool, rows: seq<StoredArticle>,
                       city: string, limit: int)
    returns (threw: bool, news: seq<StoredArticle>)
    modifies pool
    ensures pool.checkedOut == old(pool.checkedOut)
    ensures threw <==> !available
    ensures news == if available && executes then NewsByCity(rows, city, limit) else []
  {
    var ok := pool.GetConnection(available);
    if !ok {
      return true, [];
    }
    news := if executes then NewsByCity(rows, city, limit) else [];
    pool.Release();
    threw := false;
  }

  /** `getLatestNews` over the table `rows`, with the same failure paths. */
  method GetLatestNews(pool: ConnectionPool, available: bool, executes: bool, rows: seq<StoredArticle>, limit: int)
    returns (threw: bool, news: seq<StoredArticle>)
    modifies pool
    ensures pool.checkedOut == old(pool.checkedOut)
    ensures threw <==> !available
    ensures news == if available && executes then LatestNews(rows, limit) else []
  {
    var ok := pool.GetConnection(available);
    if !ok {
      return true, [];
    }
    news := if executes then LatestNews(rows, limit) else [];
    pool.Release();
    threw := false;
  }

  // ---------------------------------------------------------------------
  // One tick of the aggregation timer

  /** What the outside world answers during one tick. */
  datatype TickInputs = TickInputs(
    listAvailable: bool,                   // getAllUserLocations gets a connection
    listExecutes: bool,                    // its SELECT succeeds
    headlines: (nat, string) -> seq<ApiArticle>,  // getNewsByCountry of the i-th location, by country code
    everything: (nat, string) -> seq<ApiArticle>, // searchNewsByCity of the i-th location, by query text
    saveAvailable: nat -> bool,            // saveArticles of the i-th location gets a connection
    saveOutcome: nat -> Outcomes,          // and the database's answers to its inserts
    registry: Registry,
    pages: Pages,
    resolve: Resolver,
    scrapeAvailable: bool,                 // saveScrapedArticles gets a connection
    scrapeOutcome: Outcomes,
    now: int)

  datatype TickReport =
    | ListThrew       // getAllUserLocations threw: the tick rejects before anything else
    | NoLocations     // the early return
    | Ran(countries: seq<string>,
          saves: seq<Option<BatchReport<NewsRow>>>,
          scraped: seq<ScrapedArticle>,
          stored: Option<BatchReport<ScrapedRow>>)

  function CountriesOf(locations: seq<CityCountry>): (cs: seq<string>)
    ensures |cs| == |locations|
    ensures forall i :: 0 <= i < |locations| ==> cs[i] == locations[i].country
  {
    seq(|locations|, i requires 0 <= i < |locations| => locations[i].country)
  }

  /** What the `try` block of the `i`-th location does: fetch, merge, save.
      `None` is the location whose save threw; the `catch` logs it and the
      loop goes on. */
  function LocationSave(i: nat, loc: CityCountry, env: TickInputs): Option<BatchReport<NewsRow>> {
    if env.saveAvailable(i) then
      var news := LocalNews(env.headlines(i, CountryCode(loc.country)), env.everything(i, loc.city + " " + loc.country));
      Some(SaveReport(news, loc.city, loc.country, env.now, env.saveOutcome(i)))
    else None
  }

  /** The loop of `aggregateNews` over the locations: each location's
      `try` runs whether or not an earlier one threw. */
  method SaveLocations(pool: ConnectionPool, locations: seq<CityCountry>, env: TickInputs)
    returns (saves: seq<Option<BatchReport<NewsRow>>>)
    modifies pool
    ensures pool.checkedOut == old(pool.checkedOut)
    ensures |saves| == |locations|
    ensures forall i :: 0 <= i < |locations| ==> saves[i] == LocationSave(i, locations[i], env)
  {
    saves := [];
    var i := 0;
    while i < |locations|
      invariant 0 <= i <= |locations|
      invariant pool.checkedOut == old(pool.checkedOut)
      invariant |saves| == i
      invariant forall k :: 0 <= k < i ==> saves[k] == LocationSave(k, locations[k], env)
    {
      var loc := locations[i];
      var countryCode := CountryCode(loc.country);
      var news := LocalNews(env.headlines(i, countryCode), env.everything(i, loc.city + " " + loc.country));
      var saved := SaveArticles(pool, env.saveAvailable(i), news, loc.city, loc.country, env.now, env.saveOutcome(i));
      assert saved == LocationSave(i, loc, env);
      saves := saves + [saved];
      i := i + 1;
    }
  }

  /** `aggregateNews`. `locations` is what getAllUserLocations returned. */
  method AggregateNews(pool: ConnectionPool, store: UserLocationStore, env: TickInputs)
    returns (locations: seq<CityCountry>, report: TickReport)
    modifies pool
    ensures pool.checkedOut == old(pool.checkedOut)
    ensures report.ListThrew? <==> !env.listAvailable
    ensures report.NoLocations? <==> env.listAvailable && locations == []
    ensures env.listAvailable && !env.listExecutes ==> report.NoLocations?
    ensures env.listAvailable && env.listExecutes ==>
      && NoDup(locations)
      && (forall i :: 0 <= i < |locations| ==> locations[i] in Projection(store.rows))
      && (forall cc :: cc in Projection(store.rows) ==> cc in locations)
    ensures report.Ran? ==>
      && report.countries == Distinct(CountriesOf(locations))
      && |report.saves| == |locations|
      && (forall i :: 0 <= i < |locations| ==> report.saves[i] == LocationSave(i, locations[i], env))
      && report.scraped == SweepArticles(env.registry, report.countries, env.pages, env.resolve, env.now)
      && (report.stored.None? <==> !env.scrapeAvailable)
      && (report.stored.Some? ==>
            report.stored.value == BatchReport(TallyOf(ScrapedVerdicts(|report.scraped|, env.scrapeOutcome)),
                                               ScrapedRows(report.scraped, env.now)))
  {
    var threw;
    threw, locations := store.GetAllUserLocations(pool, env.listAvailable, env.listExecutes);
    if threw {
      return locations, ListThrew;
    }
    if |locations| == 0 {
      return locations, NoLocations;
    }
    var uniqueCountries := Distinct(CountriesOf(locations));
    var saves := SaveLocations(pool, locations, env);
    var scraped, stored := ScrapeForCountries(pool, env.registry, uniqueCountries, env.pages, env.resolve,
      env.now, env.scrapeAvailable, env.scrapeOutcome);
    report := Ran(uniqueCountries, saves, scraped, stored);
  }
}
