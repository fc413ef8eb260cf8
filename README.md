# GeoPulse backend services in Dafny

GeoPulse is a location-aware news backend. Users post their location;
a timer tick takes the distinct (city, country) pairs of the stored
locations, fetches NewsAPI headlines and city searches for each pair,
merges and deduplicates them, and stores them with the city's coordinates.
It then scrapes the registered local news sites of the countries involved
and stores those articles too. Beside the news pipeline sit an RSS
aggregator, a weather-alert classifier that also stores alerts, and
user-submitted reports. Reports expire after a day, and other users
confirm and upvote them.

This project models the six service files of the backend:

- pure logic (merging, deduplication, classification, lookups, query
  selection) as functions;
- the loops (saving batches, the scrape and feed sweeps, the tick) as
  methods with invariants, each proved equal to a function on its inputs;
- the database tables the services update (user locations, reports,
  verifications) as classes whose methods modify `seq` and `map` fields.

Everything outside the process is an input of the model:

- what HTTP requests return, what cheerio selectors match and what xml2js
  parses;
- how relative links resolve and how dates parse;
- whether the pool hands out a connection, whether each SQL statement
  succeeds, and what each INSERT into `articles` answers.

SELECT answers are computed from the modelled tables (`user_locations`,
`user_reports`, `report_verifications`, `articles`).

Coordinates are fixed-point integers in units of 10⁻⁴ degree. Times are
integer milliseconds. Distances are an uninterpreted function
`dist(lat1, lng1, lat2, lng2)`.

Modules, one per file:

- `Common`: `Option`, JavaScript's `||` defaults, `includes`, `startsWith`,
  `trim` (with the ECMAScript whitespace set), ASCII `toLowerCase`, and
  first-occurrence dedup (`[...new Set(xs)]`).
- `Sorting`: filter, stable sort by key, `LIMIT`, and the lemmas that a
  sort is sorted, stable and a permutation, and that the rows a
  `LIMIT` keeps are the top rows.
- `Database`: the connection pool as a class counting checked-out
  connections, so "the connection is released on every path" is an
  `ensures`. Also the saved / duplicate / error classification that
  `saveArticles` and `saveScrapedArticles` share.
- `NewsService`, `ScraperService`, `RssFeedService`, `WeatherService`,
  `ReportsService`, `UserLocationService`: the service files.

Two behaviours of the code that a reader might not expect:

- A report's verification counter is not monotonic. The code recounts the
  'confirm' rows on every verification, so a user who turns a confirm into
  a dispute lowers it. `ReportsService.ConfirmCountAfterVerify` states the
  exact change.
- `verifyReport` runs its three statements outside a transaction. When the
  count or the update fails, the upserted verification stays and the
  report's stored count is stale. So "count equals the confirms" holds
  after a successful call, not as a table invariant.

## Model

| member | source | states |
|---|---|---|
| Common.TrimSpec | geopulse_backend/services/scraperService.js:31 | `trim()` removes exactly the leading and trailing ECMAScript white space: the result is a slice of the input, neither end of it is white space, and everything cut is |
| Common.ContainsIff | geopulse_backend/services/newsService.js:115 | `includes(sub)` holds iff `sub` occurs at some position |
| Common.Distinct | geopulse_backend/services/newsService.js:252 | `[...new Set(xs)]` has no duplicates, holds every element of `xs` and nothing else |
| Common.DistinctFirstOccurrenceOrder | geopulse_backend/services/newsService.js:252 | `[...new Set(xs)]` lists its elements in the order of their first occurrences |
| Sorting.SortSorted | geopulse_backend/services/newsService.js:68-70 | the sort by key produces a sequence sorted by the comparator |
| Sorting.SortStable | geopulse_backend/services/newsService.js:68-70 | elements with equal keys keep their input order (`Array.prototype.sort` is stable) |
| Sorting.Sort | geopulse_backend/services/newsService.js:68-70 | the sorted list is a permutation of the input |
| Sorting.Filter | geopulse_backend/services/newsService.js:159-170 | the filtered list holds exactly the elements satisfying the predicate, and is no longer than the input |
| Sorting.FilterSortedBy | geopulse_backend/services/newsService.js:159-170 | filtering a sorted list keeps it sorted |
| Sorting.LimitedTop | geopulse_backend/services/reportsService.js:191-192 | `ORDER BY … LIMIT n` returns a sorted prefix, and every row it leaves out ranks after every row it keeps |
| Sorting.Limited | geopulse_backend/services/reportsService.js:185-193 | a negative limit gives [], since the SQL error is caught; otherwise the first `n` rows. A non-numeric `?limit=` makes `parseInt` give NaN, `LIMIT NaN` fails the same way and the route sees the same [], so the negative case stands for it too |
| Database.Classify | geopulse_backend/services/newsService.js:109-120 | `affectedRows > 0` is saved, any other result a duplicate; a thrown error is a duplicate iff its message contains 'Duplicate entry', else an error |
| Database.TallyTotal | geopulse_backend/services/newsService.js:79-122 | saved + duplicates + errors equals the number of articles |
| Database.WholeSeconds | geopulse_backend/services/newsService.js:85-87 | `toISOString().slice(0, 19)` keeps whole seconds: the stored time is at most the instant and less than a second before it |
| NewsService.LastWithTitle | geopulse_backend/services/newsService.js:64-66 | the article a `Map` keyed by title keeps is in the input and has that title; there is none iff the title is absent |
| NewsService.UniqueByTitleTitles | geopulse_backend/services/newsService.js:62-66 | the titles after the `Map` dedup are the distinct titles of `apiNews ++ searchNews`, in first-occurrence order |
| NewsService.UniqueByTitleKeepsLast | geopulse_backend/services/newsService.js:64-66 | the article kept under each title is the last occurrence of that title |
| NewsService.UniqueByTitleOrder | geopulse_backend/services/newsService.js:64-66 | deduplicated articles come in the order of their titles' first occurrences |
| NewsService.NewerFirstTotal | geopulse_backend/services/newsService.js:68-70 | the newest-first comparator is a total order, with undated articles last |
| NewsService.UniqueByTitleSpec | geopulse_backend/services/newsService.js:64-66 | after the `Map` dedup no title occurs twice, every input title is present and carries its last article, and the list is no longer than the input |
| NewsService.LocalNewsSpec | geopulse_backend/services/newsService.js:56-71 | `getLocalNews` has no two articles with one title; every fetched title is present and carries its last article; the length is at most the number fetched; the list is newest first; equal dates keep dedup order |
| NewsService.CityCoordinatesByPair | geopulse_backend/services/newsService.js:130-143 | `getCityCoordinates` returns the entry of exactly the ten listed (city, country) pairs and (0, 0) otherwise; no listed city lies at (0, 0) |
| NewsService.CityEntry | geopulse_backend/services/newsService.js:130-143 | a `${city}-${country}` key equals a listed key exactly when the pair is the listed pair (no listed name contains '-') |
| NewsService.ListedCityFound1 | geopulse_backend/services/newsService.js:132-134 | the keys of Accra, Lagos and New York are in the table and hold their pairs' coordinates |
| NewsService.ListedCityFound2 | geopulse_backend/services/newsService.js:135-136 | likewise for London and Toronto |
| NewsService.ListedCityFound3 | geopulse_backend/services/newsService.js:137-139 | likewise for Nairobi, Cairo and Kampala |
| NewsService.ListedCityFound4 | geopulse_backend/services/newsService.js:140-141 | likewise for Dar es Salaam and Addis Ababa |
| NewsService.ListedCityFound | geopulse_backend/services/newsService.js:130-143 | every listed pair's key is in the table and holds that pair's coordinates |
| NewsService.FoundCityListed1 | geopulse_backend/services/newsService.js:132-134 | a pair whose key is that of Accra, Lagos or New York is that listed pair |
| NewsService.FoundCityListed2 | geopulse_backend/services/newsService.js:135-136 | likewise for London and Toronto |
| NewsService.FoundCityListed3 | geopulse_backend/services/newsService.js:137-139 | likewise for Nairobi, Cairo and Kampala |
| NewsService.FoundCityListed4 | geopulse_backend/services/newsService.js:140-141 | likewise for Dar es Salaam and Addis Ababa |
| NewsService.FoundCityListed | geopulse_backend/services/newsService.js:130-143 | a pair whose key is in the table is a listed pair |
| NewsService.CountryCode | geopulse_backend/services/newsService.js:275-299 | `getCountryCode` gives the mapped two-letter code, or 'us' for an unmapped country |
| NewsService.CountryCodeUsIff | geopulse_backend/services/newsService.js:275-299 | 'us' comes back exactly for the two names of the United States and for unmapped countries |
| NewsService.NewsRowOf | geopulse_backend/services/newsService.js:85-107 | the INSERT parameters: each of title, description, image URL and url is the article's value, or '' when missing; the source name is the article's when non-empty, else 'Unknown'; the save time for a missing date, whole seconds, the coordinates computed for the batch |
| NewsService.SaveReport | geopulse_backend/services/newsService.js:76-107 | every row of a batch carries the coordinates `getCityCoordinates` gives for its city and country |
| NewsService.SaveEach | geopulse_backend/services/newsService.js:83-121 | the `for` loop counts exactly the verdicts `TallyOf(ArticleVerdicts(...))` and executes exactly the rows `ExecutedNewsRows(...)` |
| NewsService.ArticleVerdict | geopulse_backend/services/newsService.js:84-121 | an unparsable date throws before the INSERT and counts as an error |
| NewsService.SaveReportTotal | geopulse_backend/services/newsService.js:79-122 | every article lands in exactly one of the three counters |
| NewsService.SaveArticles | geopulse_backend/services/newsService.js:73-128 | the coordinates are looked up once, the counting loop gives the counters and rows of `SaveReport`, the connection is released, and a pool without connections makes the call throw |
| NewsService.LocationWindowSpec | geopulse_backend/services/newsService.js:149-157 | the SQL window is a top-rows answer (`Sorting.TopRows`): exactly the `min(limit * 10, located)` newest located rows, each at most as often as stored, newest first, every located row left out no newer than any kept |
| NewsService.NewsForLocationSpec | geopulse_backend/services/newsService.js:146-176 | `Sorting.FilteredTop`: results are stored rows within the radius, newest first, at most `limit * 10`; every window row within the radius is returned; a row within the radius that is not returned is no newer than any row of the window or of the result; all of them when every located row fits the window |
| NewsService.NewsByCitySpec | geopulse_backend/services/newsService.js:192-211 | a top-rows answer: exactly the `min(limit, matching)` newest articles whose city matches without case, newest first; none for a negative limit |
| NewsService.LatestNewsSpec | geopulse_backend/services/newsService.js:213-235 | a top-rows answer with no `WHERE`: exactly the `min(limit, rows)` newest stored articles, newest first; none for a negative limit |
| NewsService.GetNewsForLocation | geopulse_backend/services/newsService.js:146-176 | a pool without a connection makes the call throw; otherwise the connection is released, and the answer is `NewsForLocation` over the table, or [] when the SELECT fails |
| NewsService.GetNewsByCity | geopulse_backend/services/newsService.js:192-211 | a pool without a connection makes the call throw; otherwise the connection is released, and the answer is `NewsByCity` over the table, or [] when the SELECT fails |
| NewsService.GetLatestNews | geopulse_backend/services/newsService.js:213-235 | a pool without a connection makes the call throw; otherwise the connection is released, and the answer is `LatestNews` over the table, or [] when the SELECT fails |
| NewsService.CountriesOf | geopulse_backend/services/newsService.js:252 | the countries of the locations, position by position |
| NewsService.SaveLocations | geopulse_backend/services/newsService.js:255-264 | every location is processed whether or not an earlier one threw; each result is that location's fetch-merge-save |
| NewsService.AggregateNews | geopulse_backend/services/newsService.js:240-268 | a throwing location list rejects the tick; an empty list fetches, saves and scrapes nothing; `uniqueCountries` is the distinct countries in first-occurrence order; every location is saved; the scrape sweep runs once, after the loop, over `uniqueCountries` |
| ScraperService.SourcesForCountry | geopulse_backend/services/scraperService.js:11-13 | the registry entry, or [] for a country with none |
| ScraperService.MainCityUnknownIff | geopulse_backend/services/scraperService.js:87-97 | `getMainCity` answers 'Unknown' exactly for unmapped countries |
| ScraperService.ScraperCoordinatesNonZeroIff | geopulse_backend/services/scraperService.js:153-159 | the scraper's own table gives non-zero coordinates only for London, UK and New York, USA |
| ScraperService.StepCases | geopulse_backend/services/scraperService.js:30-47 | a node is skipped iff its trimmed text has at most ten characters, aborts the page iff its href cannot be resolved, and otherwise emits an article built from it |
| ScraperService.ScrapeMatchesAbortIff | geopulse_backend/services/scraperService.js:30-55 | the page yields nothing because of an error iff some kept node's href fails to resolve |
| ScraperService.ScrapeMatchesEmits | geopulse_backend/services/scraperService.js:30-47 | without an error, one article per kept node, in selector order, each built from its node |
| ScraperService.KeptIsLong | geopulse_backend/services/scraperService.js:33 | every kept node's trimmed text is longer than ten characters |
| ScraperService.ScrapedFromSpec | geopulse_backend/services/scraperService.js:15-56 | a failed fetch yields []; at most one article per match; each titled by more than ten characters and stamped with the source's name, city and country; an `http` href is used verbatim |
| ScraperService.ScrapeSource | geopulse_backend/services/scraperService.js:15-56 | the `.each` loop computes `ScrapedFrom` |
| ScraperService.SweepSkipsUnregistered | geopulse_backend/services/scraperService.js:61-66 | a country without sources contributes nothing |
| ScraperService.SweepStamped | geopulse_backend/services/scraperService.js:61-81 | every swept article belongs to a requested, registered country, carries its main city and names one of its sources |
| ScraperService.CollectForCountry | geopulse_backend/services/scraperService.js:69-80 | the inner loop appends each source's articles in source order |
| ScraperService.CollectForCountries | geopulse_backend/services/scraperService.js:58-82 | the outer loop concatenates in country order, then source order |
| ScraperService.ScrapedRowOf | geopulse_backend/services/scraperService.js:111-131 | the INSERT replaces the scrape time with the save time in whole seconds and uses the scraper's coordinates |
| ScraperService.SaveScrapedArticles | geopulse_backend/services/scraperService.js:100-151 | the counters and rows of the batch; the connection is released; a pool without connections makes the call throw |
| ScraperService.ScrapeForCountries | geopulse_backend/services/scraperService.js:58-85 | collect everything, then save it in one batch; when the save throws, so does the call |
| RssFeedService.FieldText | geopulse_backend/services/rssFeedService.js:71-73 | an absent field reads as '', an empty list as undefined, otherwise its first occurrence |
| RssFeedService.ItemDate | geopulse_backend/services/rssFeedService.js:74 | a missing `pubDate` is the current time |
| RssFeedService.ItemArticle | geopulse_backend/services/rssFeedService.js:70-82 | a kept item's article has its non-empty title and link and is stamped with the feed name, city and country |
| RssFeedService.ParsedItemsSubsequence | geopulse_backend/services/rssFeedService.js:66-86 | the output is the order-preserving subsequence of the items with a title and a link, so no longer than the item list |
| RssFeedService.ParseRss | geopulse_backend/services/rssFeedService.js:59-89 | a missing document, `rss` or `channel` gives []; with a channel list present, the call throws exactly when that list is empty |
| RssFeedService.ParseRssSpec | geopulse_backend/services/rssFeedService.js:70-84 | every article has a non-empty title and url and the feed's stamps |
| RssFeedService.ParseRSSItems | geopulse_backend/services/rssFeedService.js:59-89 | the item loop computes `ParseRss` |
| RssFeedService.OnlyGhanaAndNigeria | geopulse_backend/services/rssFeedService.js:7-37 | only Ghana (three feeds) and Nigeria (two) have feeds |
| RssFeedService.UnconfiguredCountrySkipped | geopulse_backend/services/rssFeedService.js:95 | a country without feeds contributes nothing |
| RssFeedService.AllFeedArticlesStamped | geopulse_backend/services/rssFeedService.js:94-118 | every article belongs to a requested country with feeds and comes from one of its feeds |
| RssFeedService.FetchCountryFeeds | geopulse_backend/services/rssFeedService.js:97-116 | the feed loop skips feeds whose fetch failed and concatenates in feed order |
| RssFeedService.FetchAllFeeds | geopulse_backend/services/rssFeedService.js:91-122 | the country loop concatenates in country order, and a parse that throws rejects the call |
| WeatherService.MapAlertType | geopulse_backend/services/weatherService.js:71-80 | the result is one of the six types: the first keyword in priority order found in the lowercased event, 'rain' when none is |
| WeatherService.MapAlertTypeIgnoresCase | geopulse_backend/services/weatherService.js:72 | events equal up to ASCII case get the same type |
| WeatherService.ThunderAlwaysStorm | geopulse_backend/services/weatherService.js:73-74 | an event mentioning thunder is a storm whatever else it mentions, flood included |
| WeatherService.MapSeverity | geopulse_backend/services/weatherService.js:82-88 | 'moderate' for missing or empty tags, else the first of Extreme, Severe, Moderate present, else 'minor' |
| WeatherService.AlertRowOf | geopulse_backend/services/weatherService.js:47-61 | the row's start and end are the epoch-second fields times 1000, the type and severity are among the mapped values, and the source is the sender's name when non-empty, else 'Weather Service' |
| WeatherService.FirstStop | geopulse_backend/services/weatherService.js:39-66 | the position of the first alert that ends the loop (missing event or failed INSERT), every earlier alert being saved |
| WeatherService.SaveWeatherAlerts | geopulse_backend/services/weatherService.js:36-69 | the rows of the alerts before the first stop are inserted, in order; the connection is released |
| WeatherService.GetWeatherAlerts | geopulse_backend/services/weatherService.js:10-34 | alerts are saved only when the list is non-empty; a failed fetch or a failed save yields [] |
| ReportsService.NewReport | geopulse_backend/services/reportsService.js:22-45 | the new row stores the caller's user, type, title and coordinates; description, location name, city and country are the caller's value, or '' when missing; severity is the caller's when non-empty, else 'medium'; an image or video URL is the caller's when non-empty, else null; it expires at now + 86 400 000 ms and starts active with no upvotes or verifications |
| ReportsService.NewReportActiveForADay | geopulse_backend/services/reportsService.js:22 | a new report is active at time `t` iff `t` is less than a day after its creation |
| ReportsService.Verify | geopulse_backend/services/reportsService.js:90-104 | one verification per (report, user); a second replaces type and comment and keeps the first's creation time; other rows unchanged |
| ReportsService.ConfirmCountAfterVerify | geopulse_backend/services/reportsService.js:90-113 | a verification changes the report's confirm count by dropping the user's old confirm and adding the new one, if any |
| ReportsService.ConfirmCountOtherReport | geopulse_backend/services/reportsService.js:106-113 | verifying one report leaves other reports' confirm counts unchanged |
| ReportsService.VerifyIdempotent | geopulse_backend/services/reportsService.js:90-97 | repeating the same verification changes nothing |
| ReportsService.UpdateWhere | geopulse_backend/services/reportsService.js:115-126 | `UPDATE … WHERE id = ?` changes exactly the rows with that id |
| ReportsService.UpvoteRaisesScore | geopulse_backend/services/reportsService.js:141-147 | an upvote adds one to the upvotes and to the trending score and changes no other column |
| ReportsService.HotterTotal | geopulse_backend/services/reportsService.js:191 | score descending, then created_at descending, is a total order |
| Sorting.QueryIsTop | geopulse_backend/services/reportsService.js:158-203 | a `WHERE … ORDER BY … LIMIT n` query is a top-rows answer: a sub-multiset of the matching rows, sorted, exactly `min(n, matching)` of them (none for a negative `n`), every matching row it omits ranked after every row it returns |
| Sorting.FilterOfTop | geopulse_backend/services/newsService.js:157-167 | a JavaScript filter over a top-rows answer keeps table rows meeting it, in order, within the limit; every row meeting it that it drops was not in the answer and ranks after all that it returns |
| ReportsService.ReportsByCitySpec | geopulse_backend/services/reportsService.js:158-180 | a top-rows answer: exactly the `min(limit, matching)` newest active reports of the city, compared without case |
| ReportsService.TrendingReportsSpec | geopulse_backend/services/reportsService.js:182-203 | a top-rows answer: exactly the `min(limit, active)` active reports with the highest `upvotes + 2 * verification_count`, newer first on ties |
| ReportsService.ReportsNearSpec | geopulse_backend/services/reportsService.js:57-85 | a top-rows answer: exactly the `min(limit, matching)` newest active reports within the radius |
| ReportsService.ExpiredReportsHidden | geopulse_backend/services/reportsService.js:66-190 | a report with `expires_at <= now` is in no answer of the city, trending or nearby query |
| ReportsService.ReportStore.CreateReport | geopulse_backend/services/reportsService.js:4-55 | appends the new row under the next id and returns that id; a missing connection or a failed INSERT throws and changes nothing |
| ReportsService.ReportStore.VerifyReport | geopulse_backend/services/reportsService.js:87-136 | upsert, then recount, then store the count with `verified = count >= 3`; each failure keeps the earlier effects and answers false |
| ReportsService.ReportStore.UpvoteReport | geopulse_backend/services/reportsService.js:138-156 | that report's upvotes go up by one and nothing else changes; false only when the UPDATE fails |
| ReportsService.ReportStore.GetReportsByCity | geopulse_backend/services/reportsService.js:158-180 | the city query over the table, or [] when it fails |
| ReportsService.ReportStore.GetTrendingReports | geopulse_backend/services/reportsService.js:182-203 | the trending query over the table, or [] when it fails |
| ReportsService.ReportStore.GetReportsNearLocation | geopulse_backend/services/reportsService.js:57-85 | the nearby query over the table, or [] when it fails |
| UserLocationService.Upsert | geopulse_backend/services/userLocationService.js:7-17 | the user's row is replaced or added; other users' rows are unchanged |
| UserLocationService.Lookup | geopulse_backend/services/userLocationService.js:38-45 | the user's row, or null when there is none |
| UserLocationService.SaveThenGet | geopulse_backend/services/userLocationService.js:7-45 | after a save, a lookup returns the saved values, and other users' lookups are unchanged |
| UserLocationService.DeleteThenGet | geopulse_backend/services/userLocationService.js:38-80 | after a delete, the user's lookup is null and the other rows stay |
| UserLocationService.ProjectionIff | geopulse_backend/services/userLocationService.js:57-60 | `SELECT DISTINCT city, country` holds exactly the pairs of some row with neither part null |
| UserLocationService.ProjectionAfterSave | geopulse_backend/services/userLocationService.js:7-17 | saving a location with a city and a country adds its pair, and removes the user's old pair unless another row shares it |
| UserLocationService.UserLocationStore.SaveUserLocation | geopulse_backend/services/userLocationService.js:4-33 | the table becomes the upsert; a failed INSERT is swallowed and leaves it unchanged |
| UserLocationService.UserLocationStore.GetUserLocation | geopulse_backend/services/userLocationService.js:35-52 | the lookup, or null when the SELECT fails |
| UserLocationService.UserLocationStore.DeleteUserLocation | geopulse_backend/services/userLocationService.js:72-87 | the user's row is deleted; a failure leaves the table unchanged |
| UserLocationService.UserLocationStore.GetAllUserLocations | geopulse_backend/services/userLocationService.js:54-70 | each pair of the projection exactly once, or [] when the SELECT fails |

## Left out

- HTTP requests are inputs of the model: NewsAPI, the scraped pages, the RSS feeds and OpenWeatherMap. So are cheerio's selector matches, xml2js's parse and `new URL(href, base)`. A failed request is `None`. `getNewsByCountry`, `searchNewsByCity` and `fetchRSSFeed` are only these inputs: they return the response or [] / null.
- Floating point: `calculateDistance` and the SQL `acos` expressions are an uninterpreted `dist`. The model therefore says nothing about which points are actually near.
- SQL is modelled only through the tables it reads and writes. SELECT answers are computed from those tables. Each statement's success is an input, and so is the answer of an INSERT into `articles`: its `ON DUPLICATE KEY` is only that answer (`affectedRows`).
- String comparison in SQL is exact code-point equality, as under a binary collation. This covers the keys behind `ON DUPLICATE KEY` (`user_id`, and (report_id, user_id) for verifications), `WHERE user_id = ?` and `SELECT DISTINCT city, country`. The schema is not part of this model. Under a case- and accent-insensitive collation such as MySQL 8's default `utf8mb4_0900_ai_ci`, 'Accra' and 'accra' would be one key and one distinct pair, while the model treats them as two: `AggregateNews` would then save the city twice, and `SaveThenGet`'s "other keys unchanged" does not cover a key that differs only in case. Only `LOWER(city) = LOWER(?)` is modelled as case-folding (see Common.ToLower).
- The pool's connection limit and queue are not modelled. A pool either hands out a connection or makes `getConnection` throw.
- `getActiveAlerts` (weatherService.js:90-113) is not modelled. Its `ORDER BY severity DESC` sorts severity names by collation, and its radius is floating point.
- Date parsing is an input (`DateParser`; `PubDate` is missing, invalid or an instant). ISO formatting is modelled only as truncation to whole seconds. Time zones and DATETIME column precision are not modelled.
- NewsService.NewerFirstTotal: the `getLocalNews` comparator computes `new Date(b.publishedAt) - new Date(a.publishedAt)`. That is NaN when a `publishedAt` is undefined, empty or unparsable, and the order is then up to the engine. A `publishedAt` of `null` is the epoch, 0. The model puts every article without a usable date last, so it does not reproduce the engine's order, nor the epoch for `null`.
- Timing: `setInterval`, the fetch interval and async interleaving are not modelled. A tick is one sequential call with one clock reading `now`.
- Lookup tables are plain maps in the model, so a name that is not listed finds nothing. In JavaScript, the object-literal tables also inherit `Object.prototype`'s keys, and a user's country reaches the tick unchecked (geopulse_backend/routes/newsRoutes.js:101-114). None of the following is modelled:
  - For `constructor`, `hasOwnProperty` or `__proto__`, `getSourcesForCountry` (geopulse_backend/services/scraperService.js:11-13) returns a truthy non-array whose `length` is not 0.
  - `for (const sourceConfig of sources)` (geopulse_backend/services/scraperService.js:71) then throws, so `scrapeForCountries` rejects.
  - `aggregateNews` awaits it outside every `try` (geopulse_backend/services/newsService.js:266), so the tick rejects, and nothing handles that rejection: `aggregateNews()` and `setInterval(aggregateNews, …)` (geopulse_backend/services/newsService.js:270-272) attach no `catch`.
  - For `toString` or `valueOf` the `length` is 0, so the country is skipped.
  - `fetchAllFeeds` (geopulse_backend/services/rssFeedService.js:95-104) behaves the same way on its feed table.
  - `getCountryCode` and `getMainCity` return the inherited function in place of 'us' or 'Unknown'.
- Common.ToLower: lowercases ASCII letters only. JavaScript's `toLowerCase` and MySQL's `LOWER` and case-insensitive collations also fold other letters.
- NewsService.UniqueByTitleSpec: a missing title and a `null` title are both `None`. The JavaScript `Map` of `getLocalNews` (geopulse_backend/services/newsService.js:64-65) keeps `undefined` and `null` as two keys, so an untitled article of each kind both survive there, while the model keeps only the last of them.
- Strings are sequences of code points, while JavaScript's `length > 10` counts UTF-16 code units.
- SQL `ORDER BY` leaves the order of equal keys unspecified. The model breaks such ties by table order (a stable sort). `SELECT DISTINCT` returns its pairs in an order the model leaves open.
- ReportsService.NewReport: status 'active', zero upvotes and zero verifications are the table's column defaults. The schema is not part of this model.
- ReportsService.ReportStore.CreateReport: ids are consecutive. `AUTO_INCREMENT` gaps left by failed inserts are not modelled.
- mysql2 rejects `undefined` bind parameters. Such a call is one whose statement fails: the `executes` input.
- Route handlers, `server.js`, the manual test scripts and the static registry in `newsSources.js` are not modelled. The registry is a parameter of the scrape sweep.
