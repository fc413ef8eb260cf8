/**
  rssFeedService.js: turning a parsed RSS document into articles
  (`parseRSSItems`) and the fan-out over the configured feeds of each
  country (`fetchAllFeeds`).
  What xml2js produces is the input: every element is a list of its
  occurrences, so a field is absent (`None`), present but empty
  (`Some([])`), or has a first occurrence. Fetching a feed is an input too:
  `fetchRSSFeed` resolves with the parsed document or with null.
*/
module RssFeedService {
  import opened Common
  import opened Sorting

  datatype Item = Item(
    title: Option<seq<string>>, description: Option<seq<string>>,
    link: Option<seq<string>>, pubDate: Option<seq<string>>)

  datatype Channel = Channel(item: Option<seq<Item>>)

  datatype Rss = Rss(channel: Option<seq<Channel>>)

  /** The object xml2js resolves with: its `rss` property, when present. */
  datatype RssDoc = RssDoc(rss: Option<Rss>)

  /** A JavaScript `Date`: a time value in milliseconds or an invalid date. */
  datatype RssDate = DateAt(ms: int) | InvalidDate

  /** `Date.parse` on a string: `None` for a string it cannot read. */
  type DateParser = string -> Option<int>

  datatype RssArticle = RssArticle(
    title: string, description: Option<string>, url: string, publishedAt: RssDate,
    source: string, city: string, country: string)

  /** `item.f ? item.f[0] : ''`: '' when the field is absent, `None`
      (undefined) when it is an empty list, else its first occurrence. */
  function FieldText(f: Option<seq<string>>): (r: Option<string>)
    ensures f.None? ==> r == Some("")
    ensures f.Some? && f.value == [] ==> r.None?
    ensures f.Some? && f.value != [] ==> r == Some(f.value[0])
  {
    match f
    case None => Some("")
    case Some(xs) => if xs == [] then None else Some(xs[0])
  }

  /** `item.pubDate ? new Date(item.pubDate[0]) : new Date()`. */
  function ItemDate(pubDate: Option<seq<string>>, parse: DateParser, now: int): (d: RssDate)
    ensures pubDate.None? ==> d == DateAt(now)
  {
    match pubDate
    case None => DateAt(now)
    case Some(xs) =>
      if xs == [] then InvalidDate
      else match parse(xs[0])
        case None => InvalidDate
        case Some(ms) => DateAt(ms)
  }

  /** `if (article.title && article.url)`: both present and non-empty. */
  predicate Keeps(item: Item) {
    var t, u := FieldText(item.title), FieldText(item.link);
    t.Some? && t.value != "" && u.Some? && u.value != ""
  }

  /** The article built for a kept item, stamped with the feed's name and
      city and the country. */
  function ItemArticle(item: Item, feedName: string, city: string, country: string, parse: DateParser, now: int)
    : (a: RssArticle)
    requires Keeps(item)
    ensures a.title != "" && a.url != ""
    ensures a.title == item.title.value[0] && a.url == item.link.value[0]
    ensures a.source == feedName && a.city == city && a.country == country
    ensures item.pubDate.None? ==> a.publishedAt == DateAt(now)
  {
    RssArticle(FieldText(item.title).value, FieldText(item.description), FieldText(item.link).value,
      ItemDate(item.pubDate, parse, now), feedName, city, country)
  }

  /** The articles the item loop pushes, in item order. */
  function ParsedItems(items: seq<Item>, feedName: string, city: string, country: string, parse: DateParser, now: int)
    : seq<RssArticle>
    decreases |items|
  {
    if items == [] then []
    else
      var n := |items| - 1;
      ParsedItems(items[..n], feedName, city, country, parse, now)
        + (if Keeps(items[n]) then [ItemArticle(items[n], feedName, city, country, parse, now)] else [])
  }

  /** The positions of the kept items, in increasing order. */
  function KeptPositions(items: seq<Item>): (idx: seq<nat>)
    ensures |idx| <= |items|
    ensures forall k :: 0 <= k < |idx| ==> idx[k] < |items|
    decreases |items|
  {
    if items == [] then []
    else
      var n := |items| - 1;
      KeptPositions(items[..n]) + (if Keeps(items[n]) then [n] else [])
  }

  /** The k-th article is built from the item at the k-th kept position. */
  lemma {:induction false} ParsedItemsAtKept(items: seq<Item>, feedName: string, city: string, country: string,
                                             parse: DateParser, now: int)
    ensures var r, idx := ParsedItems(items, feedName, city, country, parse, now), KeptPositions(items);
      && |r| == |idx|
      && forall k :: 0 <= k < |idx| ==>
           Keeps(items[idx[k]]) && r[k] == ItemArticle(items[idx[k]], feedName, city, country, parse, now)
    decreases |items|
  {
    if items != [] {
      var n := |items| - 1;
      var p := items[..n];
      ParsedItemsAtKept(p, feedName, city, country, parse, now);
      var idx0 := KeptPositions(p);
      var idx := KeptPositions(items);
      var r0 := ParsedItems(p, feedName, city, country, parse, now);
      var r := ParsedItems(items, feedName, city, country, parse, now);
      forall k | 0 <= k < |idx|
        ensures Keeps(items[idx[k]]) && r[k] == ItemArticle(items[idx[k]], feedName, city, country, parse, now)
      {
        if k < |idx0| {
          assert idx[k] == idx0[k] && r[k] == r0[k];
          assert items[idx0[k]] == p[idx0[k]];
        }
      }
    }
  }

  /** The kept positions increase. */
  lemma {:induction false} KeptPositionsIncrease(items: seq<Item>)
    ensures forall k, l :: 0 <= k < l < |KeptPositions(items)| ==> KeptPositions(items)[k] < KeptPositions(items)[l]
    decreases |items|
  {
    if items != [] {
      var n := |items| - 1;
      var p := items[..n];
      KeptPositionsIncrease(p);
      var idx0 := KeptPositions(p);
      var idx := KeptPositions(items);
      assert idx == idx0 + (if Keeps(items[n]) then [n] else []);
      forall k, l | 0 <= k < l < |idx| ensures idx[k] < idx[l] {
        assert idx[k] == idx0[k];
        if l < |idx0| {
          assert idx[l] == idx0[l];
        } else {
          assert idx[l] == n && idx0[k] < |p| == n;
        }
      }
    }
  }

  /** Every kept item has its position among the kept positions. */
  lemma {:induction false} KeptPositionsCover(items: seq<Item>, i: nat)
    requires i < |items| && Keeps(items[i])
    ensures i in KeptPositions(items)
    decreases |items|
  {
    var n := |items| - 1;
    var p := items[..n];
    var idx0 := KeptPositions(p);
    assert KeptPositions(items) == idx0 + (if Keeps(items[n]) then [n] else []);
    if i < n {
      assert p[i] == items[i];
      KeptPositionsCover(p, i);
    }
  }

  /** The output is the subsequence of the kept items, in their order: the
      k-th article is built from the item at the k-th kept position, the
      positions increase, and every kept item has one. */
  lemma ParsedItemsSubsequence(items: seq<Item>, feedName: string, city: string, country: string,
                               parse: DateParser, now: int)
    ensures var r, idx := ParsedItems(items, feedName, city, country, parse, now), KeptPositions(items);
      && |r| == |idx| <= |items|
      && (forall k :: 0 <= k < |idx| ==>
            Keeps(items[idx[k]]) && r[k] == ItemArticle(items[idx[k]], feedName, city, country, parse, now))
      && (forall k, l :: 0 <= k < l < |idx| ==> idx[k] < idx[l])
      && (forall i :: 0 <= i < |items| && Keeps(items[i]) ==> i in idx)
  {
    ParsedItemsAtKept(items, feedName, city, country, parse, now);
    KeptPositionsIncrease(items);
    forall i | 0 <= i < |items| && Keeps(items[i]) ensures i in KeptPositions(items) {
      KeptPositionsCover(items, i);
    }
  }

  /** `parseRSSItems`: `Some(articles)`, or `None` when the function throws
      because `rss.channel` is an empty list. A missing document, `rss` or
      `channel` gives []; a channel without items gives []. */
  function ParseRss(doc: Option<RssDoc>, feedName: string, city: string, country: string, parse: DateParser, now: int)
    : (r: Option<seq<RssArticle>>)
    ensures doc.None? || doc.value.rss.None? || doc.value.rss.value.channel.None? ==> r == Some([])
    ensures doc.Some? && doc.value.rss.Some? && doc.value.rss.value.channel.Some? ==>
      (r.None? <==> doc.value.rss.value.channel.value == [])
  {
    if doc.None? || doc.value.rss.None? || doc.value.rss.value.channel.None? then Some([])
    else
      var channels := doc.value.rss.value.channel.value;
      if channels == [] then None
      else Some(ParsedItems(channels[0].item.GetOr([]), feedName, city, country, parse, now))
  }

  /** What `parseRSSItems` promises about the articles it returns. */
  lemma ParseRssSpec(doc: Option<RssDoc>, feedName: string, city: string, country: string, parse: DateParser, now: int)
    ensures var r := ParseRss(doc, feedName, city, country, parse, now);
      r.Some? ==> forall k :: 0 <= k < |r.value| ==>
        var a := r.value[k];
        && a.title != "" && a.url != ""
        && a.source == feedName && a.city == city && a.country == country
  {
    var r := ParseRss(doc, feedName, city, country, parse, now);
    if r.Some? && r.value != [] {
      var items := doc.value.rss.value.channel.value[0].item.GetOr([]);
      ParsedItemsSubsequence(items, feedName, city, country, parse, now);
    }
  }

  /** The item loop of `parseRSSItems`. */
  method ParseRSSItems(doc: Option<RssDoc>, feedName: string, city: string, country: string, parse: DateParser, now: int)
    returns (articles: Option<seq<RssArticle>>)
    ensures articles == ParseRss(doc, feedName, city, country, parse, now)
  {
    if doc.None? || doc.value.rss.None? || doc.value.rss.value.channel.None? {
      return Some([]);
    }
    var channels := doc.value.rss.value.channel.value;
    if |channels| == 0 {
      return None;
    }
    var items := channels[0].item.GetOr([]);
    var acc: seq<RssArticle> := [];
    var i := 0;
    while i < |items|
      invariant 0 <= i <= |items|
      invariant acc == ParsedItems(items[..i], feedName, city, country, parse, now)
    {
      assert items[..i + 1][..i] == items[..i];
      var item := items[i];
      var title := FieldText(item.title);
      var url := FieldText(item.link);
      if title.Some? && title.value != "" && url.Some? && url.value != "" {
        var article := RssArticle(title.value, FieldText(item.description), url.value,
          ItemDate(item.pubDate, parse, now), feedName, city, country);
        acc := acc + [article];
      }
      i := i + 1;
    }
    assert items[..i] == items;
    articles := Some(acc);
  }

  // ---------------------------------------------------------------------
  // fetchAllFeeds

  datatype Feed = Feed(name: string, url: string, city: string)

  /** The `feeds` table the service is constructed with. */
  const ConfiguredFeeds: map<string, seq<Feed>> := map[
    "Ghana" := [
      Feed("GhanaWeb RSS", "https://www.ghanaweb.com/GhanaHomePage/rss/news.xml", "Accra"),
      Feed("MyJoyOnline RSS", "https://www.myjoyonline.com/feed/", "Accra"),
      Feed("Citinewsroom RSS", "https://citinewsroom.com/feed/", "Accra")
    ],
    "Nigeria" := [
      Feed("Punch RSS", "https://punchng.com/feed/", "Lagos"),
      Feed("Premium Times RSS", "https://www.premiumtimesng.com/feed", "Lagos")
    ]
  ]

  /** `this.feeds[country] || []`. */
  function FeedsFor(feeds: map<string, seq<Feed>>, country: string): (r: seq<Feed>)
    ensures country !in feeds ==> r == []
    ensures country in feeds ==> r == feeds[country]
  {
    if country in feeds then feeds[country] else []
  }

  /** Only Ghana and Nigeria have feeds: every other country is skipped. */
  lemma OnlyGhanaAndNigeria(country: string)
    ensures FeedsFor(ConfiguredFeeds, country) != [] <==> country == "Ghana" || country == "Nigeria"
    ensures |FeedsFor(ConfiguredFeeds, "Ghana")| == 3 && |FeedsFor(ConfiguredFeeds, "Nigeria")| == 2
  {
  }

  /** What `fetchRSSFeed` resolved with, by feed url. */
  type Fetcher = string -> Option<RssDoc>

  /** Both parts, or the throw of either. */
  function Concat(a: Option<seq<RssArticle>>, b: Option<seq<RssArticle>>): (r: Option<seq<RssArticle>>)
    ensures r.Some? <==> a.Some? && b.Some?
    ensures r.Some? ==> r.value == a.value + b.value
  {
    if a.Some? && b.Some? then Some(a.value + b.value) else None
  }

  /** One feed: a null fetch is skipped, anything else parsed. */
  function FeedArticles(feed: Feed, country: string, fetch: Fetcher, parse: DateParser, now: int)
    : (r: Option<seq<RssArticle>>)
    ensures fetch(feed.url).None? ==> r == Some([])
  {
    if fetch(feed.url).None? then Some([])
    else ParseRss(fetch(feed.url), feed.name, feed.city, country, parse, now)
  }

  /** The inner loop: the feeds of one country, in feed order. */
  function CountryFeedArticles(fs: seq<Feed>, country: string, fetch: Fetcher, parse: DateParser, now: int)
    : Option<seq<RssArticle>>
    decreases |fs|
  {
    if fs == [] then Some([])
    else
      var n := |fs| - 1;
      Concat(CountryFeedArticles(fs[..n], country, fetch, parse, now), FeedArticles(fs[n], country, fetch, parse, now))
  }

  /** Both loops: country order, then feed order. */
  function AllFeedArticles(feeds: map<string, seq<Feed>>, countries: seq<string>, fetch: Fetcher, parse: DateParser, now: int)
    : Option<seq<RssArticle>>
    decreases |countries|
  {
    if countries == [] then Some([])
    else
      var n := |countries| - 1;
      Concat(AllFeedArticles(feeds, countries[..n], fetch, parse, now),
        CountryFeedArticles(FeedsFor(feeds, countries[n]), countries[n], fetch, parse, now))
  }

  /** A country without feeds contributes nothing. */
  lemma UnconfiguredCountrySkipped(feeds: map<string, seq<Feed>>, countries: seq<string>, c: string,
                                   fetch: Fetcher, parse: DateParser, now: int)
    requires c !in feeds
    ensures AllFeedArticles(feeds, countries + [c], fetch, parse, now) == AllFeedArticles(feeds, countries, fetch, parse, now)
  {
    assert (countries + [c])[..|countries|] == countries;
    var r := AllFeedArticles(feeds, countries, fetch, parse, now);
    if r.Some? {
      assert r.value + [] == r.value;
    }
  }

  /** Every article of a country's feeds carries that country and the name
      and city of one of those feeds, and a non-empty title and url. */
  lemma {:induction false} CountryFeedArticlesStamped(fs: seq<Feed>, country: string, fetch: Fetcher, parse: DateParser, now: int)
    ensures var r := CountryFeedArticles(fs, country, fetch, parse, now);
      r.Some? ==> forall a :: a in r.value ==>
        && a.country == country && a.title != "" && a.url != ""
        && exists k :: 0 <= k < |fs| && fs[k].name == a.source && fs[k].city == a.city
    decreases |fs|
  {
    if fs != [] {
      var n := |fs| - 1;
      var p := fs[..n];
      CountryFeedArticlesStamped(p, country, fetch, parse, now);
      var f := fs[n];
      ParseRssSpec(fetch(f.url), f.name, f.city, country, parse, now);
      var r := CountryFeedArticles(fs, country, fetch, parse, now);
      if r.Some? {
        var r0 := CountryFeedArticles(p, country, fetch, parse, now).value;
        var last := FeedArticles(f, country, fetch, parse, now).value;
        forall a | a in r.value
          ensures a.country == country && a.title != "" && a.url != ""
          ensures exists k :: 0 <= k < |fs| && fs[k].name == a.source && fs[k].city == a.city
        {
          if a in r0 {
            var k :| 0 <= k < |p| && p[k].name == a.source && p[k].city == a.city;
            assert fs[k] == p[k];
          } else {
            assert a in last;
            var k :| 0 <= k < |last| && last[k] == a;
            assert fs[n].name == a.source && fs[n].city == a.city;
          }
        }
      }
    }
  }

  /** Every article `fetchAllFeeds` returns belongs to a country asked for
      that has feeds, and comes from one of that country's feeds. */
  lemma {:induction false} AllFeedArticlesStamped(feeds: map<string, seq<Feed>>, countries: seq<string>,
                                                  fetch: Fetcher, parse: DateParser, now: int)
    ensures var r := AllFeedArticles(feeds, countries, fetch, parse, now);
      r.Some? ==> forall a :: a in r.value ==>
        && a.country in countries && a.country in feeds && a.title != "" && a.url != ""
        && exists k :: 0 <= k < |feeds[a.country]| && feeds[a.country][k].name == a.source
                       && feeds[a.country][k].city == a.city
    decreases |countries|
  {
    if countries != [] {
      var n := |countries| - 1;
      var p := countries[..n];
      var c := countries[n];
      AllFeedArticlesStamped(feeds, p, fetch, parse, now);
      CountryFeedArticlesStamped(FeedsFor(feeds, c), c, fetch, parse, now);
      var r := AllFeedArticles(feeds, countries, fetch, parse, now);
      if r.Some? {
        var r0 := AllFeedArticles(feeds, p, fetch, parse, now).value;
        forall a | a in r.value ensures a.country in countries {
          if a in r0 {
            assert a.country in p;
          }
        }
      }
    }
  }

  lemma CountryFeedArticlesPrefix(fs: seq<Feed>, j: nat, country: string, fetch: Fetcher, parse: DateParser, now: int)
    requires j < |fs|
    ensures CountryFeedArticles(fs[..j + 1], country, fetch, parse, now)
         == Concat(CountryFeedArticles(fs[..j], country, fetch, parse, now), FeedArticles(fs[j], country, fetch, parse, now))
  {
    assert fs[..j + 1][..j] == fs[..j];
  }

  lemma AllFeedArticlesPrefix(feeds: map<string, seq<Feed>>, countries: seq<string>, i: nat,
                              fetch: Fetcher, parse: DateParser, now: int)
    requires i < |countries|
    ensures AllFeedArticles(feeds, countries[..i + 1], fetch, parse, now)
         == Concat(AllFeedArticles(feeds, countries[..i], fetch, parse, now),
                   CountryFeedArticles(FeedsFor(feeds, countries[i]), countries[i], fetch, parse, now))
  {
    assert countries[..i + 1][..i] == countries[..i];
  }

  /** Once a part has thrown, the whole throws. */
  lemma {:induction false} CountryFeedArticlesNoneStays(fs: seq<Feed>, j: nat, country: string,
                                                        fetch: Fetcher, parse: DateParser, now: int)
    requires j <= |fs|
    requires CountryFeedArticles(fs[..j], country, fetch, parse, now).None?
    ensures CountryFeedArticles(fs, country, fetch, parse, now).None?
    decreases |fs| - j
  {
    if j < |fs| {
      CountryFeedArticlesPrefix(fs, j, country, fetch, parse, now);
      CountryFeedArticlesNoneStays(fs, j + 1, country, fetch, parse, now);
    } else {
      assert fs[..j] == fs;
    }
  }

  lemma {:induction false} AllFeedArticlesNoneStays(feeds: map<string, seq<Feed>>, countries: seq<string>, i: nat,
                                                    fetch: Fetcher, parse: DateParser, now: int)
    requires i <= |countries|
    requires AllFeedArticles(feeds, countries[..i], fetch, parse, now).None?
    ensures AllFeedArticles(feeds, countries, fetch, parse, now).None?
    decreases |countries| - i
  {
    if i < |countries| {
      AllFeedArticlesPrefix(feeds, countries, i, fetch, parse, now);
      AllFeedArticlesNoneStays(feeds, countries, i + 1, fetch, parse, now);
    } else {
      assert countries[..i] == countries;
    }
  }

  /** The inner loop of `fetchAllFeeds` over one country's feeds. */
  method FetchCountryFeeds(fs: seq<Feed>, country: string, fetch: Fetcher, parse: DateParser, now: int)
    returns (articles: Option<seq<RssArticle>>)
    ensures articles == CountryFeedArticles(fs, country, fetch, parse, now)
  {
    var acc: seq<RssArticle> := [];
    var j := 0;
    while j < |fs|
      invariant 0 <= j <= |fs|
      invariant CountryFeedArticles(fs[..j], country, fetch, parse, now) == Some(acc)
    {
      CountryFeedArticlesPrefix(fs, j, country, fetch, parse, now);
      var feed := fs[j];
      var rssData := fetch(feed.url);
      if rssData.Some? {
        var parsed := ParseRSSItems(rssData, feed.name, feed.city, country, parse, now);
        if parsed.None? {
          CountryFeedArticlesNoneStays(fs, j + 1, country, fetch, parse, now);
          return None;
        }
        acc := acc + parsed.value;
      } else {
        assert acc + [] == acc;
      }
      j := j + 1;
    }
    assert fs[..j] == fs;
    articles := Some(acc);
  }

  /** `fetchAllFeeds`: `None` when a parse threw, which rejects the call. */
  method FetchAllFeeds(feeds: map<string, seq<Feed>>, countries: seq<string>, fetch: Fetcher, parse: DateParser, now: int)
    returns (articles: Option<seq<RssArticle>>)
    ensures articles == AllFeedArticles(feeds, countries, fetch, parse, now)
  {
    var acc: seq<RssArticle> := [];
    var i := 0;
    while i < |countries|
      invariant 0 <= i <= |countries|
      invariant AllFeedArticles(feeds, countries[..i], fetch, parse, now) == Some(acc)
    {
      AllFeedArticlesPrefix(feeds, countries, i, fetch, parse, now);
      var country := countries[i];
      var countryFeeds := FeedsFor(feeds, country);
      if |countryFeeds| == 0 {
        assert acc + [] == acc;
        i := i + 1;
        continue;
      }
      var fetched := FetchCountryFeeds(countryFeeds, country, fetch, parse, now);
      if fetched.None? {
        AllFeedArticlesNoneStays(feeds, countries, i + 1, fetch, parse, now);
        return None;
      }
      acc := acc + fetched.value;
      i := i + 1;
    }
    assert countries[..i] == countries;
    articles := Some(acc);
  }
}
