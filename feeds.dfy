/**
 * The three feed routes: the blog feed built with lib/rss.ts
 * (app/feed.xml/route.ts), the self-contained blog feed
 * (app/feed/route.ts), and the daily feed of projects
 * (app/daily/feed.xml/route.ts). Loaded entries and projects are inputs, and
 * `new Date(x).toUTCString()` is an abstract formatter.
 */
module Feeds {
  import opened Wrappers
  import opened Text
  import opened Escaping
  import opened Rss
  import opened RssDecode

  /** `process.env.NEXT_PUBLIC_SITE_URL || "https://wilsonchao.com"` */
  const DefaultSiteUrl: string := "https://wilsonchao.com"

  function SiteUrl(env: Option<string>): (url: string)
    ensures Truthy(env) ==> url == env.value
    ensures !Truthy(env) ==> url == DefaultSiteUrl
    ensures url != ""
  {
    if Truthy(env) then env.value else DefaultSiteUrl
  }

  /** `new Date(x).toUTCString()` */
  type UtcFormatter = string -> string

  /** The formatter's output is non-empty and contains no `<`, as an HTTP date does. */
  ghost predicate WellFormedDates(toUtc: UtcFormatter) {
    forall d :: toUtc(d) != "" && '<' !in toUtc(d)
  }

  /* ---------- Blog feed ---------- */

  /** The fields of a loaded blog entry that the feeds read. */
  datatype FeedEntry = FeedEntry(slug: string, title: string, publishedAt: Option<string>, excerpt: Option<string>)

  const BlogTitle: string := "wilsonchao.com blog"
  const BlogDescription: string := "Articles and notes from Yi-Hsiang Chao, MD"

  function BlogLink(siteUrl: string, slug: string): string {
    siteUrl + "/blog/" + slug
  }

  /** `entry.publishedAt ? new Date(entry.publishedAt).toUTCString() : undefined` */
  function FormattedDate(toUtc: UtcFormatter, date: Option<string>): (r: Option<string>)
    ensures r.Some? <==> Truthy(date)
    ensures r.Some? ==> r.value == toUtc(date.value)
  {
    if Truthy(date) then Some(toUtc(date.value)) else None
  }

  /** The item the blog feed builds for one entry. */
  function BlogItem(siteUrl: string, toUtc: UtcFormatter, entry: FeedEntry): RssItem {
    var link := BlogLink(siteUrl, entry.slug);
    RssItem(entry.title, link, Some(link), FormattedDate(toUtc, entry.publishedAt), entry.excerpt)
  }

  /** `entries.map(...)`: one item per entry, in order. */
  function BlogItems(siteUrl: string, toUtc: UtcFormatter, entries: seq<FeedEntry>): (items: seq<RssItem>)
    ensures |items| == |entries| && forall i :: 0 <= i < |entries| ==> items[i] == BlogItem(siteUrl, toUtc, entries[i])
  {
    seq(|entries|, i requires 0 <= i < |entries| => BlogItem(siteUrl, toUtc, entries[i]))
  }

  /** `GET` of app/feed.xml/route.ts: an RSS 200 response with the default cache lifetime, titled with the blog's name. */
  function BlogFeed(siteUrl: string, toUtc: UtcFormatter, entries: seq<FeedEntry>): (r: FeedResponse)
    ensures r.status == 200 && r.contentType == RssContentType
    ensures r.cacheControl == "public, max-age=900, stale-while-revalidate=3600"
    ensures StartsWith(r.body, DocumentHead + EscapeXml(BlogTitle) + "</title>\n    <link>")
  {
    DefaultCacheControl();
    BuildRssResponse(BlogTitle, siteUrl, Some(BlogDescription), BlogItems(siteUrl, toUtc, entries), None)
  }

  /** What a reader of the blog feed sees for one entry. */
  function BlogReading(siteUrl: string, toUtc: UtcFormatter, entry: FeedEntry): ParsedItem {
    var link := BlogLink(siteUrl, entry.slug);
    ParsedItem(entry.title, link, link, FormattedDate(toUtc, entry.publishedAt), Present(entry.excerpt))
  }

  function BlogReadings(siteUrl: string, toUtc: UtcFormatter, entries: seq<FeedEntry>): (r: seq<ParsedItem>)
    ensures |r| == |entries| && forall i :: 0 <= i < |entries| ==> r[i] == BlogReading(siteUrl, toUtc, entries[i])
  {
    seq(|entries|, i requires 0 <= i < |entries| => BlogReading(siteUrl, toUtc, entries[i]))
  }

  /**
   * The blog feed reads back as its fixed title and description, the site
   * link, and one item per entry in order, whose link and guid are both the
   * entry's blog URL, whose date is present exactly when the entry has one and
   * whose description is the excerpt when it is non-empty; the response is 200
   * with the default cache lifetime.
   */
  lemma BlogFeedReadsBack(siteUrl: string, toUtc: UtcFormatter, entries: seq<FeedEntry>)
    requires WellFormedDates(toUtc)
    ensures var r := BlogFeed(siteUrl, toUtc, entries);
      && r.status == 200 && r.contentType == RssContentType
      && r.cacheControl == "public, max-age=900, stale-while-revalidate=3600"
      && ParseRss(r.body) == Some(ParsedChannel(BlogTitle, siteUrl, Some(BlogDescription), BlogReadings(siteUrl, toUtc, entries)))
  {
    var items := BlogItems(siteUrl, toUtc, entries);
    DefaultCacheControl();
    BlogItemsSafe(siteUrl, toUtc, entries);
    DocumentRoundTrip(BlogTitle, siteUrl, Some(BlogDescription), items);
    BlogReadingsAreCanonical(siteUrl, toUtc, entries);
  }

  lemma BlogItemsSafe(siteUrl: string, toUtc: UtcFormatter, entries: seq<FeedEntry>)
    requires WellFormedDates(toUtc)
    ensures PubDatesSafe(BlogItems(siteUrl, toUtc, entries))
  {
    var items := BlogItems(siteUrl, toUtc, entries);
    forall i | 0 <= i < |items| ensures PubDateSafe(items[i]) {
      assert items[i].pubDate.Some? ==> '<' !in toUtc(entries[i].publishedAt.value);
    }
  }

  lemma BlogReadingsAreCanonical(siteUrl: string, toUtc: UtcFormatter, entries: seq<FeedEntry>)
    requires WellFormedDates(toUtc)
    ensures Canonicals(BlogItems(siteUrl, toUtc, entries)) == BlogReadings(siteUrl, toUtc, entries)
  {
    var items := BlogItems(siteUrl, toUtc, entries);
    forall i | 0 <= i < |entries| ensures Canonicals(items)[i] == BlogReadings(siteUrl, toUtc, entries)[i] {
      assert items[i].pubDate.Some? ==> toUtc(entries[i].publishedAt.value) != "";
    }
  }

  /* ---------- The self-contained blog feed, app/feed/route.ts ---------- */

  /** The parts of the item template of `buildRss`, in order. */
  function StandaloneItemParts(siteUrl: string, toUtc: UtcFormatter, entry: FeedEntry): (parts: seq<string>)
    ensures |parts| == 11
  {
    var link := BlogLink(siteUrl, entry.slug);
    [ "\n<item>\n  <title>", EscapeXml(entry.title),
      "</title>\n  <link>", EscapeXml(link),
      "</link>\n  <guid>", EscapeXml(link),
      "</guid>\n  ",
      if Truthy(entry.publishedAt) then "<pubDate>" + toUtc(entry.publishedAt.value) + "</pubDate>" else "",
      "\n  ",
      if Truthy(entry.excerpt) then "<description>" + EscapeXml(entry.excerpt.value) + "</description>" else "",
      "\n</item>" ]
  }

  function StandaloneRenderedItems(siteUrl: string, toUtc: UtcFormatter, entries: seq<FeedEntry>): (r: seq<string>)
    ensures |r| == |entries| && forall i :: 0 <= i < |entries| ==> r[i] == Concat(StandaloneItemParts(siteUrl, toUtc, entries[i]))
  {
    seq(|entries|, i requires 0 <= i < |entries| => Concat(StandaloneItemParts(siteUrl, toUtc, entries[i])))
  }

  /** The parts of the document template of `buildRss`, in order. */
  function StandaloneDocumentParts(siteUrl: string, rendered: string): (parts: seq<string>)
    ensures |parts| == 9
  {
    [ "<?xml version=\"1.0\" encoding=\"UTF-8\"?>\n<rss version=\"2.0\">\n  <channel>\n    <title>",
      "wilsonchao.com blog",
      "</title>\n    <link>", EscapeXml(siteUrl),
      "</link>\n    ", "<description>" + BlogDescription + "</description>",
      "\n    ", rendered,
      "\n  </channel>\n</rss>" ]
  }

  /** `buildRss`: the XML declaration, then an RSS 2.0 channel titled with the blog's name. */
  function BuildRss(siteUrl: string, toUtc: UtcFormatter, entries: seq<FeedEntry>): (xml: string)
    ensures StartsWith(xml, DocumentHead + "wilsonchao.com blog" + "</title>\n    <link>")
  {
    var p := StandaloneDocumentParts(siteUrl, Join(StandaloneRenderedItems(siteUrl, toUtc, entries), ""));
    ConcatStartsWith3(p);
    Concat(p)
  }

  /**
   * `GET` of app/feed/route.ts: the document with fixed status and headers,
   * which are those `buildRssResponse` sends without a cache lifetime.
   */
  function StandaloneFeed(siteUrl: string, toUtc: UtcFormatter, entries: seq<FeedEntry>): (r: FeedResponse)
    ensures r.status == 200 && r.contentType == RssContentType
    ensures r.cacheControl == CacheControl(DefaultCacheSeconds)
    ensures StartsWith(r.body, DocumentHead + "wilsonchao.com blog" + "</title>\n    <link>")
  {
    DefaultCacheControl();
    FeedResponse(BuildRss(siteUrl, toUtc, entries), 200, "application/rss+xml; charset=utf-8",
      "public, max-age=900, stale-while-revalidate=3600")
  }

  /** Text without reserved characters. */
  predicate Plain(s: string) {
    forall i :: 0 <= i < |s| ==> !(s[i] == '&' || IsMarkup(s[i]))
  }

  /** Escaping leaves text without reserved characters unchanged. */
  lemma {:induction false} EscapePlain(s: string)
    requires Plain(s)
    ensures EscapeXml(s) == s
    decreases |s|
  {
    if s != [] {
      assert Plain(s[1..]) by {
        assert forall i :: 0 <= i < |s| - 1 ==> s[1..][i] == s[i + 1];
      }
      EscapePlain(s[1..]);
      assert EscapeEach(s, Xml) == [s[0]] + EscapeEach(s[1..], Xml);
    }
  }

  /** The self-contained template renders an entry exactly as lib/rss.ts renders its item. */
  lemma StandaloneItemAgrees(siteUrl: string, toUtc: UtcFormatter, entry: FeedEntry)
    requires Truthy(entry.publishedAt) ==> toUtc(entry.publishedAt.value) != ""
    ensures StandaloneItemParts(siteUrl, toUtc, entry) == ItemParts(BlogItem(siteUrl, toUtc, entry))
  {
    var link := BlogLink(siteUrl, entry.slug);
    assert link != "";
  }

  /** The fixed text of the two blog documents is the same. */
  lemma StandaloneFixedTextAgrees()
    ensures EscapeXml(BlogTitle) == "wilsonchao.com blog"
    ensures DescriptionElement(Some(BlogDescription)) == "<description>" + BlogDescription + "</description>"
  {
    FixedTextPlain();
    EscapePlain(BlogTitle);
    EscapePlain(BlogDescription);
  }

  lemma FixedTextPlain()
    ensures Plain(BlogTitle) && Plain(BlogDescription)
  {
  }

  /**
   * Both blog routes serve the same response: the same document, status,
   * content type and cache header. This needs the date formatter never to
   * return `""`, since the self-contained template checks the entry's date and lib/rss.ts
   * checks the formatted one.
   */
  lemma BlogFeedsAgree(siteUrl: string, toUtc: UtcFormatter, entries: seq<FeedEntry>)
    requires forall i :: 0 <= i < |entries| && Truthy(entries[i].publishedAt) ==> toUtc(entries[i].publishedAt.value) != ""
    ensures StandaloneFeed(siteUrl, toUtc, entries) == BlogFeed(siteUrl, toUtc, entries)
  {
    BlogDocumentsAgree(siteUrl, toUtc, entries);
  }

  /** The two blog documents are the same text. */
  lemma BlogDocumentsAgree(siteUrl: string, toUtc: UtcFormatter, entries: seq<FeedEntry>)
    requires forall i :: 0 <= i < |entries| && Truthy(entries[i].publishedAt) ==> toUtc(entries[i].publishedAt.value) != ""
    ensures BuildRss(siteUrl, toUtc, entries) == RssXml(BlogTitle, siteUrl, Some(BlogDescription), BlogItems(siteUrl, toUtc, entries))
  {
    var items := BlogItems(siteUrl, toUtc, entries);
    BlogRenderingsAgree(siteUrl, toUtc, entries);
    assert Join(StandaloneRenderedItems(siteUrl, toUtc, entries), "") == RenderItems(items);
    BlogDocumentPartsAgree(siteUrl, items);
  }

  /** Around the same rendered items, the two document templates have the same parts. */
  lemma BlogDocumentPartsAgree(siteUrl: string, items: seq<RssItem>)
    ensures StandaloneDocumentParts(siteUrl, RenderItems(items)) == DocumentParts(BlogTitle, siteUrl, Some(BlogDescription), items)
  {
    StandaloneFixedTextAgrees();
  }

  lemma BlogRenderingsAgree(siteUrl: string, toUtc: UtcFormatter, entries: seq<FeedEntry>)
    requires forall i :: 0 <= i < |entries| && Truthy(entries[i].publishedAt) ==> toUtc(entries[i].publishedAt.value) != ""
    ensures StandaloneRenderedItems(siteUrl, toUtc, entries) == RenderedItems(BlogItems(siteUrl, toUtc, entries))
  {
    var a, b := StandaloneRenderedItems(siteUrl, toUtc, entries), RenderedItems(BlogItems(siteUrl, toUtc, entries));
    forall i | 0 <= i < |entries|
      ensures a[i] == b[i]
    {
      StandaloneItemAgrees(siteUrl, toUtc, entries[i]);
    }
  }

  /* ---------- Daily feed ---------- */

  /** The fields of a loaded project that the daily feed reads. */
  datatype Project = Project(slug: Option<string>, href: Option<string>, title: string, date: Option<string>,
                             excerpt: Option<string>, description: Option<string>)

  const DailyTitle: string := "wilsonchao.com daily"
  const DailyDescription: string := "Daily notes and cases"

  /** The project's link: its daily page when it has a slug, else an absolute `href`, else none. */
  function DailyLink(siteUrl: string, project: Project): (link: Option<string>)
    ensures Truthy(project.slug) ==> link == Some(siteUrl + "/daily/" + project.slug.value)
    ensures !Truthy(project.slug) && Truthy(project.href) && StartsWith(project.href.value, "http") ==> link == project.href
    ensures !Truthy(project.slug) && !(Truthy(project.href) && StartsWith(project.href.value, "http")) ==> link.None?
  {
    if Truthy(project.slug) then Some(siteUrl + "/daily/" + project.slug.value)
    else if Truthy(project.href) && StartsWith(project.href.value, "http") then project.href
    else None
  }

  /** The project appears in the feed (`if (!link) return []`). */
  predicate Kept(siteUrl: string, project: Project) {
    Truthy(DailyLink(siteUrl, project))
  }

  /** `project.excerpt || project.description` */
  function DailyDescriptionOf(project: Project): Option<string> {
    if Truthy(project.excerpt) then project.excerpt else project.description
  }

  /** The item of a kept project. */
  function DailyItem(siteUrl: string, toUtc: UtcFormatter, project: Project): RssItem
    requires Kept(siteUrl, project)
  {
    var link := DailyLink(siteUrl, project).value;
    RssItem(project.title, link, Some(link), FormattedDate(toUtc, project.date), DailyDescriptionOf(project))
  }

  /**
   * `projects.flatMap(...)`: the items of the kept projects, at most one per
   * project, each with a non-empty link that is also its guid.
   */
  function DailyItems(siteUrl: string, toUtc: UtcFormatter, projects: seq<Project>): (items: seq<RssItem>)
    ensures |items| <= |projects|
    ensures forall j :: 0 <= j < |items| ==> items[j].link != "" && GuidOf(items[j]) == items[j].link
    decreases |projects|
  {
    if projects == [] then []
    else
      var n := |projects| - 1;
      DailyItems(siteUrl, toUtc, projects[..n])
        + (if Kept(siteUrl, projects[n]) then [DailyItem(siteUrl, toUtc, projects[n])] else [])
  }

  /** The positions of the kept projects, in increasing order. */
  function KeptIndices(siteUrl: string, projects: seq<Project>): seq<nat>
    decreases |projects|
  {
    if projects == [] then []
    else
      var n := |projects| - 1;
      KeptIndices(siteUrl, projects[..n]) + (if Kept(siteUrl, projects[n]) then [n] else [])
  }

  /** Position `i` is among the kept positions exactly when project `i` has a link; they increase. */
  lemma {:induction false} KeptIndicesSpec(siteUrl: string, projects: seq<Project>)
    ensures var ks := KeptIndices(siteUrl, projects);
      && |ks| <= |projects|
      && (forall j :: 0 <= j < |ks| ==> ks[j] < |projects| && Kept(siteUrl, projects[ks[j]]))
      && (forall j, k :: 0 <= j < k < |ks| ==> ks[j] < ks[k])
      && (forall i :: 0 <= i < |projects| && Kept(siteUrl, projects[i]) ==> i in ks)
    decreases |projects|
  {
    if projects != [] {
      var n := |projects| - 1;
      var prefix := projects[..n];
      KeptIndicesSpec(siteUrl, prefix);
      assert forall i :: 0 <= i < n ==> prefix[i] == projects[i];
    }
  }

  /** Item `j` of the daily feed is the item of the `j`-th kept project. */
  lemma {:induction false} DailyItemsAreKeptItems(siteUrl: string, toUtc: UtcFormatter, projects: seq<Project>)
    ensures var ks, items := KeptIndices(siteUrl, projects), DailyItems(siteUrl, toUtc, projects);
      && |items| == |ks|
      && forall j :: 0 <= j < |ks| ==>
           (ks[j] < |projects| && Kept(siteUrl, projects[ks[j]]) && items[j] == DailyItem(siteUrl, toUtc, projects[ks[j]]))
    decreases |projects|
  {
    if projects != [] {
      var n := |projects| - 1;
      var prefix := projects[..n];
      DailyItemsAreKeptItems(siteUrl, toUtc, prefix);
      var ks, items := KeptIndices(siteUrl, prefix), DailyItems(siteUrl, toUtc, prefix);
      var ks', items' := KeptIndices(siteUrl, projects), DailyItems(siteUrl, toUtc, projects);
      var kept := Kept(siteUrl, projects[n]);
      assert ks' == ks + (if kept then [n] else []);
      assert items' == items + (if kept then [DailyItem(siteUrl, toUtc, projects[n])] else []);
      forall j | 0 <= j < |ks'|
        ensures ks'[j] < |projects| && Kept(siteUrl, projects[ks'[j]]) && items'[j] == DailyItem(siteUrl, toUtc, projects[ks'[j]])
      {
        if j < |ks| {
          assert ks'[j] == ks[j] && items'[j] == items[j];
          assert prefix[ks[j]] == projects[ks[j]];
        }
      }
    }
  }

  /** Every daily item has a non-empty link, used as its guid, pointing at the daily page or an absolute URL. */
  lemma DailyItemLinks(siteUrl: string, toUtc: UtcFormatter, project: Project)
    requires Kept(siteUrl, project)
    ensures var item := DailyItem(siteUrl, toUtc, project);
      && item.link != "" && GuidOf(item) == item.link
      && (if Truthy(project.slug) then item.link == siteUrl + "/daily/" + project.slug.value
          else StartsWith(item.link, "http") && Some(item.link) == project.href)
      && (item.pubDate.None? <==> !Truthy(project.date))
      && (Truthy(project.excerpt) ==> item.description == project.excerpt)
      && (!Truthy(project.excerpt) ==> item.description == project.description)
  {
  }

  /** `GET` of app/daily/feed.xml/route.ts: an RSS 200 response with the default cache lifetime, titled with the daily name. */
  function DailyFeed(siteUrl: string, toUtc: UtcFormatter, projects: seq<Project>): (r: FeedResponse)
    ensures r.status == 200 && r.contentType == RssContentType
    ensures r.cacheControl == "public, max-age=900, stale-while-revalidate=3600"
    ensures StartsWith(r.body, DocumentHead + EscapeXml(DailyTitle) + "</title>\n    <link>")
  {
    DefaultCacheControl();
    BuildRssResponse(DailyTitle, siteUrl + "/daily", Some(DailyDescription), DailyItems(siteUrl, toUtc, projects), None)
  }

  /** The daily feed reads back as its fixed title and description, the `/daily` link, and the kept projects' items. */
  lemma DailyFeedReadsBack(siteUrl: string, toUtc: UtcFormatter, projects: seq<Project>)
    requires WellFormedDates(toUtc)
    ensures var r := DailyFeed(siteUrl, toUtc, projects);
      && r.status == 200 && r.cacheControl == "public, max-age=900, stale-while-revalidate=3600"
      && ParseRss(r.body) == Some(ParsedChannel(DailyTitle, siteUrl + "/daily", Some(DailyDescription),
           Canonicals(DailyItems(siteUrl, toUtc, projects))))
  {
    var items := DailyItems(siteUrl, toUtc, projects);
    DailyItemsSafe(siteUrl, toUtc, projects);
    DocumentRoundTrip(DailyTitle, siteUrl + "/daily", Some(DailyDescription), items);
    assert DailyFeed(siteUrl, toUtc, projects).body == RssXml(DailyTitle, siteUrl + "/daily", Some(DailyDescription), items);
  }

  lemma DailyItemsSafe(siteUrl: string, toUtc: UtcFormatter, projects: seq<Project>)
    requires WellFormedDates(toUtc)
    ensures PubDatesSafe(DailyItems(siteUrl, toUtc, projects))
  {
    var items := DailyItems(siteUrl, toUtc, projects);
    DailyItemsAreKeptItems(siteUrl, toUtc, projects);
    var ks := KeptIndices(siteUrl, projects);
    forall j | 0 <= j < |items| ensures PubDateSafe(items[j]) {
      assert items[j].pubDate.Some? ==> '<' !in toUtc(projects[ks[j]].date.value);
    }
  }
}
