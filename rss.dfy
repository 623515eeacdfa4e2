/**
 * RSS 2.0 document assembly (lib/rss.ts): XML escaping, one `<item>` per
 * feed item with optional `<pubDate>` and `<description>`, the channel
 * around the items, and the response's status and header strings. Each
 * template string is written as the list of its fixed and variable parts.
 */
module Rss {
  import opened Wrappers
  import opened Text
  import opened Escaping

  /** A feed item; `guid`, `pubDate` and `description` are optional. */
  datatype RssItem = RssItem(title: string, link: string, guid: Option<string>, pubDate: Option<string>, description: Option<string>)

  /** `escapeXml`: the per-character entity map with `&apos;`, which hides no character and adds no markup. */
  function EscapeXml(s: string): (r: string)
    ensures r == EscapeEach(s, Xml)
    ensures NoMarkup(r)
    ensures Unescape(r, Xml) == s
  {
    EscapeChainSpec(s, Xml);
    EscapeChain(s, Xml)
  }

  /** `item.guid || item.link` */
  function GuidOf(item: RssItem): (g: string)
    ensures Truthy(item.guid) ==> g == item.guid.value
    ensures !Truthy(item.guid) ==> g == item.link
  {
    if Truthy(item.guid) then item.guid.value else item.link
  }

  /** The `<pubDate>` element: present iff the date is non-empty, and not escaped. */
  function PubDateElement(pubDate: Option<string>): (e: string)
    ensures e != "" <==> Truthy(pubDate)
    ensures Truthy(pubDate) ==> e == "<pubDate>" + pubDate.value + "</pubDate>"
  {
    if Truthy(pubDate) then "<pubDate>" + pubDate.value + "</pubDate>" else ""
  }

  /** A `<description>` element: present iff the text is non-empty, and escaped. */
  function DescriptionElement(description: Option<string>): (e: string)
    ensures e != "" <==> Truthy(description)
    ensures Truthy(description) ==> e == "<description>" + EscapeXml(description.value) + "</description>"
  {
    if Truthy(description) then "<description>" + EscapeXml(description.value) + "</description>" else ""
  }

  /** The parts of the `renderItem` template, in order. */
  function ItemParts(item: RssItem): (parts: seq<string>)
    ensures |parts| == 11
  {
    ItemTemplate(EscapeXml(item.title), EscapeXml(item.link), EscapeXml(GuidOf(item)),
      PubDateElement(item.pubDate), DescriptionElement(item.description))
  }

  /** The template with its five holes filled by the given texts. */
  function ItemTemplate(title: string, link: string, guid: string, pubDate: string, description: string): (parts: seq<string>)
    ensures |parts| == 11
  {
    [ ItemOpen, title, ItemTitleEnd, link, ItemLinkEnd, guid, ItemGuidEnd, pubDate, "\n  ", description, "\n</item>" ]
  }

  /** `renderItem`: an `<item>` element on a new line, opening with its escaped title. */
  function RenderItem(item: RssItem): (r: string)
    ensures StartsWith(r, ItemOpen + EscapeXml(item.title) + ItemTitleEnd)
  {
    var p := ItemParts(item);
    ConcatStartsWith3(p);
    Concat(p)
  }

  /** `items.map(renderItem)` */
  function RenderedItems(items: seq<RssItem>): (r: seq<string>)
    ensures |r| == |items| && forall i :: 0 <= i < |items| ==> r[i] == RenderItem(items[i])
  {
    seq(|items|, i requires 0 <= i < |items| => RenderItem(items[i]))
  }

  /** `items.map(renderItem).join("")`: the rendered items in input order, with no separator. */
  function RenderItems(items: seq<RssItem>): (s: string)
    ensures s == Join(RenderedItems(items), "")
    ensures items != [] ==> s == RenderItem(items[0]) + RenderItems(items[1..])
  {
    ConcatIsJoin(RenderedItems(items));
    RenderedItemsTail(items);
    Concat(RenderedItems(items))
  }

  lemma RenderedItemsTail(items: seq<RssItem>)
    ensures items != [] ==> RenderedItems(items)[1..] == RenderedItems(items[1..])
  {
  }

  /** The fixed text of an item up to its title, and the text after its title, link and guid. */
  const ItemOpen: string := "\n<item>\n  <title>"
  const ItemTitleEnd: string := "</title>\n  <link>"
  const ItemLinkEnd: string := "</link>\n  <guid>"
  const ItemGuidEnd: string := "</guid>\n  "

  /** The XML declaration and the opening of the channel, up to the title's text. */
  const DocumentHead: string := "<?xml version=\"1.0\" encoding=\"UTF-8\"?>\n<rss version=\"2.0\">\n  <channel>\n    <title>"

  /** The closing of the channel and the document. */
  const DocumentFoot: string := "\n  </channel>\n</rss>"

  /** The parts of the document template of `buildRssResponse`, in order. */
  function DocumentParts(title: string, siteUrl: string, description: Option<string>, items: seq<RssItem>): (parts: seq<string>)
    ensures |parts| == 9
  {
    [ DocumentHead, EscapeXml(title),
      "</title>\n    <link>", EscapeXml(siteUrl),
      "</link>\n    ", DescriptionElement(description),
      "\n    ", RenderItems(items),
      DocumentFoot ]
  }

  /** The XML body of `buildRssResponse`: the XML declaration, then an RSS 2.0 channel opening with its escaped title. */
  function RssXml(title: string, siteUrl: string, description: Option<string>, items: seq<RssItem>): (xml: string)
    ensures StartsWith(xml, DocumentHead + EscapeXml(title) + "</title>\n    <link>")
  {
    var p := DocumentParts(title, siteUrl, description, items);
    ConcatStartsWith3(p);
    Concat(p)
  }

  /** The parts of a response the model keeps: body, status and the two header values. */
  datatype FeedResponse = FeedResponse(body: string, status: nat, contentType: string, cacheControl: string)

  const RssContentType: string := "application/rss+xml; charset=utf-8"

  /** `cacheSeconds = 900` */
  const DefaultCacheSeconds: nat := 900

  /**
   * `public, max-age=N, stale-while-revalidate=4N`: the fixed prefix, the
   * lifetime's numeral (read back as the leading digits), the fixed middle
   * text, and the numeral of four times the lifetime.
   */
  function CacheControl(seconds: nat): (cc: string)
    ensures StartsWith(cc, "public, max-age=") && |cc| >= 16
    ensures LeadingDigits(cc[16..]) == Decimal(seconds)
    ensures var k := 16 + |Decimal(seconds)|;
      && |cc| == k + 25 + |Decimal(seconds * 4)|
      && cc[16..k] == Decimal(seconds)
      && cc[k..k + 25] == ", stale-while-revalidate="
      && cc[k + 25..] == Decimal(seconds * 4)
  {
    var prefix, maxAge, middle, stale := "public, max-age=", Decimal(seconds), ", stale-while-revalidate=", Decimal(seconds * 4);
    assert |prefix| == 16 && |middle| == 25 && !IsDigit(middle[0]);
    NumeralBetween(prefix, maxAge, middle, stale);
    prefix + (maxAge + (middle + stale))
  }

  /** `buildRssResponse`: the document, status 200 and the RSS headers. */
  function BuildRssResponse(title: string, siteUrl: string, description: Option<string>, items: seq<RssItem>,
                            cacheSeconds: Option<nat>): (r: FeedResponse)
    ensures r.status == 200 && r.contentType == RssContentType
    ensures r.body == RssXml(title, siteUrl, description, items)
    ensures r.cacheControl == CacheControl(cacheSeconds.GetOr(DefaultCacheSeconds))
  {
    FeedResponse(RssXml(title, siteUrl, description, items), 200, RssContentType,
      CacheControl(cacheSeconds.GetOr(DefaultCacheSeconds)))
  }

  /** Without `cacheSeconds` the header is `public, max-age=900, stale-while-revalidate=3600`. */
  lemma DefaultCacheControl()
    ensures CacheControl(DefaultCacheSeconds) == "public, max-age=900, stale-while-revalidate=3600"
  {
    DecimalOf900And3600();
    DefaultHeaderText();
    assert CacheControl(DefaultCacheSeconds) == "public, max-age=" + "900" + (", stale-while-revalidate=" + "3600");
  }

  lemma DefaultHeaderText()
    ensures "public, max-age=" + "900" + (", stale-while-revalidate=" + "3600") == "public, max-age=900, stale-while-revalidate=3600"
  {
  }

  lemma DecimalOf900And3600()
    ensures Decimal(900) == "900" && Decimal(3600) == "3600"
  {
    assert Decimal(9) == "9" && Decimal(90) == "90";
    assert Decimal(3) == "3" && Decimal(36) == "36" && Decimal(360) == "360";
  }

  /** The header value determines the cache lifetime. */
  lemma CacheControlInjective(m: nat, n: nat)
    ensures CacheControl(m) == CacheControl(n) <==> m == n
  {
    DecimalInjective(m, n);
  }
}
