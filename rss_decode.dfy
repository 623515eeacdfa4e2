/**
 * A reader for the documents of lib/rss.ts, used to state what the
 * rendering preserves: decoding a rendered document gives back the channel's
 * title, link and description and every item, in order, with its resolved
 * guid, with absent or empty optional elements read as absent, and with all
 * escaped text decoded.
 */
module RssDecode {
  import opened Wrappers
  import opened Text
  import opened Escaping
  import opened Rss

  /** An item as a reader of the feed sees it. */
  datatype ParsedItem = ParsedItem(title: string, link: string, guid: string, pubDate: Option<string>, description: Option<string>)

  /** A channel as a reader of the feed sees it. */
  datatype ParsedChannel = ParsedChannel(title: string, link: string, description: Option<string>, items: seq<ParsedItem>)

  /** An optional string as the template checks it: present only if non-empty. */
  function Present(o: Option<string>): (r: Option<string>)
    ensures r.Some? <==> Truthy(o)
    ensures r.Some? ==> r == o
  {
    if Truthy(o) then o else None
  }

  /** What a reader recovers from a rendered item. */
  function Canonical(item: RssItem): ParsedItem {
    ParsedItem(item.title, item.link, GuidOf(item), Present(item.pubDate), Present(item.description))
  }

  function Canonicals(items: seq<RssItem>): (r: seq<ParsedItem>)
    ensures |r| == |items| && forall i :: 0 <= i < |items| ==> r[i] == Canonical(items[i])
  {
    seq(|items|, i requires 0 <= i < |items| => Canonical(items[i]))
  }

  /** The date is inserted unescaped, so it must not contain `<` for the document to be read back. */
  predicate PubDateSafe(item: RssItem) {
    item.pubDate.Some? ==> '<' !in item.pubDate.value
  }

  predicate PubDatesSafe(items: seq<RssItem>) {
    forall i :: 0 <= i < |items| ==> PubDateSafe(items[i])
  }

  /** Consumes the literal `lit` at the front. */
  function Expect(s: string, lit: string): (r: Option<string>)
    ensures r.Some? <==> StartsWith(s, lit)
    ensures r.Some? ==> r.value == s[|lit|..]
  {
    if StartsWith(s, lit) then Some(s[|lit|..]) else None
  }

  /** Splits off the text before the first `<`. */
  function TakeText(s: string): (r: (string, string))
    ensures |r.0| + |r.1| == |s|
    decreases |s|
  {
    if s == [] || s[0] == '<' then ("", s)
    else
      var (t, rest) := TakeText(s[1..]);
      ([s[0]] + t, rest)
  }

  /** Text up to the first `<`, which must begin the literal `close`. */
  function ParseText(s: string, close: string): (r: Option<(string, string)>)
    ensures r.Some? ==> |r.value.0| + |close| + |r.value.1| == |s|
  {
    var (t, rest) := TakeText(s);
    var after :- Expect(rest, close);
    Some((t, after))
  }

  /** An optional element `open text close`: absent unless `s` starts with `open`. */
  function ParseElement(s: string, open: string, close: string): (r: Option<(Option<string>, string)>)
    ensures r.Some? ==> |r.value.1| <= |s|
  {
    if StartsWith(s, open) then
      var (t, rest) :- ParseText(s[|open|..], close);
      Some((Some(t), rest))
    else Some((None, s))
  }

  function UnescapeOption(o: Option<string>): Option<string> {
    if o.Some? then Some(Unescape(o.value, Xml)) else None
  }

  /** Reads an item's opening and its title, link and guid texts, up to the optional elements. */
  function ParseItemHead(s: string): (r: Option<(string, string, string, string)>)
    ensures r.Some? ==> |r.value.3| < |s|
  {
    var s1 :- Expect(s, ItemOpen);
    var (title, s2) :- ParseText(s1, ItemTitleEnd);
    var (link, s3) :- ParseText(s2, ItemLinkEnd);
    var (guid, s4) :- ParseText(s3, ItemGuidEnd);
    Some((title, link, guid, s4))
  }

  /** Reads an item's optional date and description and its closing. */
  function ParseItemTail(s: string): (r: Option<(Option<string>, Option<string>, string)>)
    ensures r.Some? ==> |r.value.2| < |s|
  {
    var (pubDate, s1) :- ParseElement(s, "<pubDate>", "</pubDate>");
    var s2 :- Expect(s1, "\n  ");
    var (description, s3) :- ParseElement(s2, "<description>", "</description>");
    var s4 :- Expect(s3, "\n</item>");
    Some((pubDate, description, s4))
  }

  /** Reads one `<item>` and returns it with the text after it. */
  function ParseItem(s: string): (r: Option<(ParsedItem, string)>)
    ensures r.Some? ==> |r.value.1| < |s|
  {
    var (title, link, guid, s1) :- ParseItemHead(s);
    var (pubDate, description, s2) :- ParseItemTail(s1);
    Some((ParsedItem(Unescape(title, Xml), Unescape(link, Xml), Unescape(guid, Xml), pubDate, UnescapeOption(description)), s2))
  }

  /** Reads items until the text is used up. */
  function ParseItems(s: string): Option<seq<ParsedItem>>
    decreases |s|
  {
    if s == [] then Some([])
    else
      var (item, rest) :- ParseItem(s);
      var items :- ParseItems(rest);
      Some([item] + items)
  }

  predicate EndsWith(s: string, suffix: string) {
    |suffix| <= |s| && s[|s| - |suffix|..] == suffix
  }

  /** Reads a whole document. */
  function ParseRss(s: string): Option<ParsedChannel> {
    var s1 :- Expect(s, DocumentHead);
    var (title, s2) :- ParseText(s1, "</title>\n    <link>");
    var (link, s3) :- ParseText(s2, "</link>\n    ");
    var (description, s4) :- ParseElement(s3, "<description>", "</description>");
    var s5 :- Expect(s4, "\n    ");
    if !EndsWith(s5, DocumentFoot) then None
    else
      var items :- ParseItems(s5[..|s5| - |DocumentFoot|]);
      Some(ParsedChannel(Unescape(title, Xml), Unescape(link, Xml), UnescapeOption(description), items))
  }

  /* ---------- Reading back what was rendered ---------- */

  lemma ExpectOf(lit: string, rest: string)
    ensures Expect(lit + rest, lit) == Some(rest)
  {
    assert (lit + rest)[|lit|..] == rest;
  }

  lemma {:induction false} TakeTextOf(t: string, rest: string)
    requires '<' !in t
    requires rest == [] || rest[0] == '<'
    ensures TakeText(t + rest) == (t, rest)
    decreases |t|
  {
    if t == [] {
      assert t + rest == rest;
    } else {
      assert t[0] in t && forall c :: c in t[1..] ==> c in t;
      assert (t + rest)[0] == t[0];
      assert (t + rest)[1..] == t[1..] + rest;
      TakeTextOf(t[1..], rest);
      assert [t[0]] + t[1..] == t;
    }
  }

  lemma ParseTextOf(t: string, close: string, rest: string)
    requires '<' !in t
    requires close != [] && close[0] == '<'
    ensures ParseText(t + (close + rest), close) == Some((t, rest))
  {
    TakeTextOf(t, close + rest);
    ExpectOf(close, rest);
  }

  /** Escaped text contains no `<`. */
  lemma EscapedHasNoLt(s: string)
    ensures '<' !in EscapeXml(s)
  {
    var e := EscapeXml(s);
    assert forall i :: 0 <= i < |e| ==> e[i] != '<';
  }

  lemma ElementPresent(open: string, t: string, close: string, rest: string)
    requires open != [] && '<' !in t && close != [] && close[0] == '<'
    ensures ParseElement(open + t + close + rest, open, close) == Some((Some(t), rest))
  {
    var s := open + t + close + rest;
    assert s == open + (t + (close + rest));
    ExpectOf(open, t + (close + rest));
    ParseTextOf(t, close, rest);
  }

  lemma ElementAbsent(s: string, open: string, close: string)
    requires s != [] && open != [] && s[0] != open[0]
    ensures ParseElement(s, open, close) == Some((None, s))
  {
  }

  /** The date element reads back as the date when there is one, and as absent otherwise. */
  lemma PubDateRoundTrip(pubDate: Option<string>, rest: string)
    requires pubDate.Some? ==> '<' !in pubDate.value
    requires rest != [] && rest[0] == '\n'
    ensures ParseElement(PubDateElement(pubDate) + rest, "<pubDate>", "</pubDate>") == Some((Present(pubDate), rest))
  {
    if Truthy(pubDate) {
      ElementPresent("<pubDate>", pubDate.value, "</pubDate>", rest);
    } else {
      assert PubDateElement(pubDate) + rest == rest;
      ElementAbsent(rest, "<pubDate>", "</pubDate>");
    }
  }

  /** The description element reads back, decoded, as the description when there is one. */
  lemma DescriptionRoundTrip(description: Option<string>, rest: string)
    requires rest != [] && rest[0] == '\n'
    ensures var r := ParseElement(DescriptionElement(description) + rest, "<description>", "</description>");
      r.Some? && UnescapeOption(r.value.0) == Present(description) && r.value.1 == rest
  {
    if Truthy(description) {
      EscapedHasNoLt(description.value);
      ElementPresent("<description>", EscapeXml(description.value), "</description>", rest);
    } else {
      assert DescriptionElement(description) + rest == rest;
      ElementAbsent(rest, "<description>", "</description>");
    }
  }

  /** Eleven parts followed by `rest`, nested to the right. */
  lemma Nested11(p: seq<string>, rest: string)
    requires |p| == 11
    ensures Concat(p) + rest
      == p[0] + (p[1] + (p[2] + (p[3] + (p[4] + (p[5] + (p[6] + (p[7] + (p[8] + (p[9] + (p[10] + rest))))))))))
  {
    var t9 := p[9] + (p[10] + rest);
    var t6 := p[6] + (p[7] + (p[8] + t9));
    var t3 := p[3] + (p[4] + (p[5] + t6));
    assert Concat(p[11..]) == "";
    ConcatDrop(p, 10, rest);
    ConcatDrop(p, 9, rest);
    assert Concat(p[9..]) + rest == t9;
    ConcatThree(p, 6, rest);
    assert Concat(p[6..]) + rest == t6;
    ConcatThree(p, 3, rest);
    assert Concat(p[3..]) + rest == t3;
    ConcatThree(p, 0, rest);
    assert p[0..] == p;
  }

  /** Three parts from position `k` on, followed by the rest of the template and `rest`. */
  lemma ConcatThree(p: seq<string>, k: nat, rest: string)
    requires k + 3 <= |p|
    ensures Concat(p[k..]) + rest == p[k] + (p[k + 1] + (p[k + 2] + (Concat(p[k + 3..]) + rest)))
  {
    ConcatDrop(p, k, rest);
    ConcatDrop(p, k + 1, rest);
    ConcatDrop(p, k + 2, rest);
  }

  /** A rendered item is not empty. */
  lemma RenderItemNonEmpty(item: RssItem)
    ensures RenderItem(item) != []
  {
    var p := ItemParts(item);
    assert p[0..] == p;
    ConcatDrop(p, 0, "");
  }

  lemma ItemHeadRoundTrip(item: RssItem, rest: string)
    ensures var p := ItemParts(item);
      ParseItemHead(p[0] + (p[1] + (p[2] + (p[3] + (p[4] + (p[5] + (p[6] + rest)))))))
      == Some((p[1], p[3], p[5], rest))
  {
    ItemHeadParts(item);
    EscapedHasNoLt(item.title);
    EscapedHasNoLt(item.link);
    EscapedHasNoLt(GuidOf(item));
    ParseItemHeadOf(EscapeXml(item.title), EscapeXml(item.link), EscapeXml(GuidOf(item)), rest);
  }

  lemma ItemHeadParts(item: RssItem)
    ensures var p := ItemParts(item);
      && p[0] == ItemOpen && p[1] == EscapeXml(item.title) && p[2] == ItemTitleEnd
      && p[3] == EscapeXml(item.link) && p[4] == ItemLinkEnd && p[5] == EscapeXml(GuidOf(item)) && p[6] == ItemGuidEnd
  {
    TemplateHead(EscapeXml(item.title), EscapeXml(item.link), EscapeXml(GuidOf(item)),
      PubDateElement(item.pubDate), DescriptionElement(item.description));
  }

  lemma TemplateHead(title: string, link: string, guid: string, pubDate: string, description: string)
    ensures var p := ItemTemplate(title, link, guid, pubDate, description);
      && p[0] == ItemOpen && p[1] == title && p[2] == ItemTitleEnd
      && p[3] == link && p[4] == ItemLinkEnd && p[5] == guid && p[6] == ItemGuidEnd
  {
  }

  /** Reading an item's opening from texts without `<` gives those texts back. */
  lemma ParseItemHeadOf(title: string, link: string, guid: string, rest: string)
    requires '<' !in title && '<' !in link && '<' !in guid
    ensures ParseItemHead(ItemOpen + (title + (ItemTitleEnd + (link + (ItemLinkEnd + (guid + (ItemGuidEnd + rest)))))))
         == Some((title, link, guid, rest))
  {
    var s3 := guid + (ItemGuidEnd + rest);
    var s2 := link + (ItemLinkEnd + s3);
    var s1 := title + (ItemTitleEnd + s2);
    ExpectOf(ItemOpen, s1);
    ParseTextOf(title, ItemTitleEnd, s2);
    ParseTextOf(link, ItemLinkEnd, s3);
    ParseTextOf(guid, ItemGuidEnd, rest);
  }

  lemma ItemTailRoundTrip(item: RssItem, rest: string)
    requires PubDateSafe(item)
    ensures var p := ItemParts(item);
      var r := ParseItemTail(p[7] + (p[8] + (p[9] + (p[10] + rest))));
      r.Some? && r.value.0 == Present(item.pubDate) && UnescapeOption(r.value.1) == Present(item.description) && r.value.2 == rest
  {
    var p := ItemParts(item);
    PubDateRoundTrip(item.pubDate, p[8] + (p[9] + (p[10] + rest)));
    ExpectOf(p[8], p[9] + (p[10] + rest));
    DescriptionRoundTrip(item.description, p[10] + rest);
    ExpectOf(p[10], rest);
  }

  /** Reading an item back from its rendering, whatever follows it. */
  lemma ItemRoundTrip(item: RssItem, rest: string)
    requires PubDateSafe(item)
    ensures ParseItem(RenderItem(item) + rest) == Some((Canonical(item), rest))
  {
    var p := ItemParts(item);
    Nested11(p, rest);
    ItemHeadRoundTrip(item, p[7] + (p[8] + (p[9] + (p[10] + rest))));
    ItemTailRoundTrip(item, rest);
  }

  /** Reading the items back from their concatenation gives each of them, in order. */
  lemma {:induction false} ItemsRoundTrip(items: seq<RssItem>)
    requires PubDatesSafe(items)
    ensures ParseItems(RenderItems(items)) == Some(Canonicals(items))
    decreases |items|
  {
    if items != [] {
      var s, rest := RenderItems(items), RenderItems(items[1..]);
      var first, others := Canonical(items[0]), Canonicals(items[1..]);
      FirstItemRoundTrip(items);
      ItemsRoundTrip(items[1..]);
      ParseItemsStep(s, first, rest);
      CanonicalsCons(items);
    }
  }

  lemma CanonicalsCons(items: seq<RssItem>)
    requires items != []
    ensures Canonicals(items) == [Canonical(items[0])] + Canonicals(items[1..])
  {
    var c, d := Canonicals(items), [Canonical(items[0])] + Canonicals(items[1..]);
    forall i | 0 <= i < |c|
      ensures c[i] == d[i]
    {
      if i > 0 {
        assert items[1..][i - 1] == items[i];
      }
    }
  }

  /** The rendering of a list of items starts with its first item, read back before the rest. */
  lemma FirstItemRoundTrip(items: seq<RssItem>)
    requires items != [] && PubDateSafe(items[0])
    ensures RenderItems(items) != []
    ensures ParseItem(RenderItems(items)) == Some((Canonical(items[0]), RenderItems(items[1..])))
  {
    var rest := RenderItems(items[1..]);
    assert RenderItems(items) == RenderItem(items[0]) + rest;
    ItemRoundTrip(items[0], rest);
    RenderItemNonEmpty(items[0]);
  }

  /** Reading items from a text that starts with an item: that item, then the items after it. */
  lemma ParseItemsStep(s: string, item: ParsedItem, rest: string)
    requires s != [] && ParseItem(s) == Some((item, rest))
    ensures ParseItems(s) == if ParseItems(rest).Some? then Some([item] + ParseItems(rest).value) else None
  {
  }

  /** Nine parts, nested to the right. */
  lemma Nested9(p: seq<string>)
    requires |p| == 9
    ensures Concat(p) == p[0] + (p[1] + (p[2] + (p[3] + (p[4] + (p[5] + (p[6] + (p[7] + p[8])))))))
  {
    assert p[0..] == p;
    assert p[9..] == [];
    ConcatDrop(p, 0, ""); ConcatDrop(p, 1, ""); ConcatDrop(p, 2, ""); ConcatDrop(p, 3, "");
    ConcatDrop(p, 4, ""); ConcatDrop(p, 5, ""); ConcatDrop(p, 6, ""); ConcatDrop(p, 7, "");
    ConcatDrop(p, 8, "");
    assert Concat(p) == Concat(p[0..]) + "";
  }

  /**
   * Reading a whole rendered document back: the channel's title and link,
   * its description exactly when one is given, and all items in order.
   */
  lemma DocumentRoundTrip(title: string, siteUrl: string, description: Option<string>, items: seq<RssItem>)
    requires PubDatesSafe(items)
    ensures ParseRss(RssXml(title, siteUrl, description, items))
         == Some(ParsedChannel(title, siteUrl, Present(description), Canonicals(items)))
  {
    var p := DocumentParts(title, siteUrl, description, items);
    Nested9(p);
    EscapedHasNoLt(title);
    EscapedHasNoLt(siteUrl);
    ItemsRoundTrip(items);
    ParseRssOf(p[1], p[3], description, p[7], Canonicals(items));
  }

  /** Reading a document assembled from an escaped title and link, a description element and rendered items. */
  lemma ParseRssOf(title: string, link: string, description: Option<string>, rendered: string, items: seq<ParsedItem>)
    requires '<' !in title && '<' !in link
    requires ParseItems(rendered) == Some(items)
    ensures ParseRss(DocumentHead + (title + ("</title>\n    <link>" + (link + ("</link>\n    "
              + (DescriptionElement(description) + ("\n    " + (rendered + DocumentFoot))))))))
         == Some(ParsedChannel(Unescape(title, Xml), Unescape(link, Xml), Present(description), items))
  {
    var body := rendered + DocumentFoot;
    var s4 := "\n    " + body;
    var s3 := DescriptionElement(description) + s4;
    var s2 := link + ("</link>\n    " + s3);
    var s1 := title + ("</title>\n    <link>" + s2);
    ExpectOf(DocumentHead, s1);
    ParseTextOf(title, "</title>\n    <link>", s2);
    ParseTextOf(link, "</link>\n    ", s3);
    DescriptionRoundTrip(description, s4);
    ExpectOf("\n    ", body);
    assert body[..|body| - |DocumentFoot|] == rendered;
  }
}
