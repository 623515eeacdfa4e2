/**
 * Block conversion in the content sync (scripts/sync-notion.ts): each block
 * of a page becomes a Markdown fragment (text verbatim), an HTML fragment
 * (text escaped) and a plain-text fragment, by a closed switch on the block
 * type in which every unsupported type yields `""`.
 */
module Blocks {
  import opened Text
  import opened Escaping
  import opened Notion

  /** A full block as the script sees it: the switch's cases plus everything else. */
  datatype Block =
    | Heading1(richText: seq<RichTextItem>)
    | Heading2(richText: seq<RichTextItem>)
    | Heading3(richText: seq<RichTextItem>)
    | Paragraph(richText: seq<RichTextItem>)
    | BulletedListItem(richText: seq<RichTextItem>)
    | NumberedListItem(richText: seq<RichTextItem>)
    | Quote(richText: seq<RichTextItem>)
    | Callout(richText: seq<RichTextItem>)
    | Divider
    | Unsupported(kind: string)

  /** The block types whose conversion carries the block's text. */
  predicate HasText(b: Block) {
    !b.Divider? && !b.Unsupported?
  }

  /** `escapeHtml`: the per-character entity map, so no `<`, `>`, `"` or `'` remains and nothing is lost. */
  function EscapeHtml(s: string): (r: string)
    ensures r == EscapeEach(s, Html)
    ensures NoMarkup(r)
    ensures Unescape(r, Html) == s
  {
    EscapeChainSpec(s, Html);
    EscapeChain(s, Html)
  }

  /** `convertBlockToMarkdown`: the type's prefix and the verbatim text; `---` for a divider; `""` otherwise. */
  function ConvertBlockToMarkdown(b: Block): (md: string)
    ensures HasText(b) ==> md == MarkdownPrefix(b) + ConcatSpans(b.richText)
    ensures b.Divider? ==> md == "---"
    ensures b.Unsupported? ==> md == ""
  {
    match b
    case Heading1(rt) => "# " + TextFromRichText(rt)
    case Heading2(rt) => "## " + TextFromRichText(rt)
    case Heading3(rt) => "### " + TextFromRichText(rt)
    case Paragraph(rt) => TextFromRichText(rt)
    case BulletedListItem(rt) => "- " + TextFromRichText(rt)
    case NumberedListItem(rt) => "1. " + TextFromRichText(rt)
    case Quote(rt) => "> " + TextFromRichText(rt)
    case Callout(rt) => "> " + TextFromRichText(rt)
    case Divider => "---"
    case Unsupported(_) => ""
  }

  /** `convertBlockToHtml`: the escaped text between the type's tags; `<hr />` for a divider; `""` otherwise. */
  function ConvertBlockToHtml(b: Block): (html: string)
    ensures HasText(b) ==> html == HtmlTags(b).0 + EscapeHtml(ConcatSpans(b.richText)) + HtmlTags(b).1
    ensures b.Divider? ==> html == "<hr />"
    ensures b.Unsupported? ==> html == ""
  {
    match b
    case Heading1(rt) => "<h1>" + EscapeHtml(TextFromRichText(rt)) + "</h1>"
    case Heading2(rt) => "<h2>" + EscapeHtml(TextFromRichText(rt)) + "</h2>"
    case Heading3(rt) => "<h3>" + EscapeHtml(TextFromRichText(rt)) + "</h3>"
    case Paragraph(rt) => "<p>" + EscapeHtml(TextFromRichText(rt)) + "</p>"
    case BulletedListItem(rt) => "<ul><li>" + EscapeHtml(TextFromRichText(rt)) + "</li></ul>"
    case NumberedListItem(rt) => "<ol><li>" + EscapeHtml(TextFromRichText(rt)) + "</li></ol>"
    case Quote(rt) => "<blockquote>" + EscapeHtml(TextFromRichText(rt)) + "</blockquote>"
    case Callout(rt) => "<blockquote>" + EscapeHtml(TextFromRichText(rt)) + "</blockquote>"
    case Divider => "<hr />"
    case Unsupported(_) => ""
  }

  /** `plainTextFromBlock`: the span text of a text block, `""` for a divider or any other type. */
  function PlainTextFromBlock(b: Block): (text: string)
    ensures HasText(b) ==> text == ConcatSpans(b.richText)
    ensures !HasText(b) ==> text == ""
  {
    match b
    case Heading1(rt) => TextFromRichText(rt)
    case Heading2(rt) => TextFromRichText(rt)
    case Heading3(rt) => TextFromRichText(rt)
    case Paragraph(rt) => TextFromRichText(rt)
    case BulletedListItem(rt) => TextFromRichText(rt)
    case NumberedListItem(rt) => TextFromRichText(rt)
    case Quote(rt) => TextFromRichText(rt)
    case Callout(rt) => TextFromRichText(rt)
    case Divider => ""
    case Unsupported(_) => ""
  }

  /** Reference table: the Markdown prefix of each text-carrying block type. */
  function MarkdownPrefix(b: Block): string
    requires HasText(b)
  {
    if b.Heading1? then "# "
    else if b.Heading2? then "## "
    else if b.Heading3? then "### "
    else if b.Paragraph? then ""
    else if b.BulletedListItem? then "- "
    else if b.NumberedListItem? then "1. "
    else "> "
  }

  /** Reference table: the HTML element(s) wrapping each text-carrying block type. */
  function HtmlTags(b: Block): (tags: (string, string))
    requires HasText(b)
  {
    if b.Heading1? then ("<h1>", "</h1>")
    else if b.Heading2? then ("<h2>", "</h2>")
    else if b.Heading3? then ("<h3>", "</h3>")
    else if b.Paragraph? then ("<p>", "</p>")
    else if b.BulletedListItem? then ("<ul><li>", "</li></ul>")
    else if b.NumberedListItem? then ("<ol><li>", "</li></ol>")
    else ("<blockquote>", "</blockquote>")
  }

  /**
   * The three representations agree: a text block is its prefix and its
   * verbatim text in Markdown, its escaped text between fixed tags in HTML,
   * and its span text in plain text; a divider is `---`, `<hr />` and `""`;
   * anything else is `""` in all three.
   */
  lemma BlockConversionTable(b: Block)
    ensures HasText(b) ==> PlainTextFromBlock(b) == ConcatSpans(b.richText)
    ensures HasText(b) ==> ConvertBlockToMarkdown(b) == MarkdownPrefix(b) + PlainTextFromBlock(b)
    ensures HasText(b) ==> ConvertBlockToHtml(b) == HtmlTags(b).0 + EscapeHtml(PlainTextFromBlock(b)) + HtmlTags(b).1
    ensures b.Divider? ==> ConvertBlockToMarkdown(b) == "---" && ConvertBlockToHtml(b) == "<hr />" && PlainTextFromBlock(b) == ""
    ensures b.Unsupported? ==> ConvertBlockToMarkdown(b) == "" && ConvertBlockToHtml(b) == "" && PlainTextFromBlock(b) == ""
  {
  }

  /** The HTML fragment carries the block's plain text exactly: strip the tags, decode, and it is back. */
  lemma HtmlFragmentCarriesPlainText(b: Block)
    requires HasText(b)
    ensures var html, tags := ConvertBlockToHtml(b), HtmlTags(b);
      && |tags.0| + |tags.1| <= |html|
      && html[..|tags.0|] == tags.0
      && html[|html| - |tags.1|..] == tags.1
      && Unescape(html[|tags.0|..|html| - |tags.1|], Html) == PlainTextFromBlock(b)
  {
    BlockConversionTable(b);
    var html, tags, e := ConvertBlockToHtml(b), HtmlTags(b), EscapeHtml(PlainTextFromBlock(b));
    assert html == tags.0 + e + tags.1;
    assert html[|tags.0|..|html| - |tags.1|] == e;
  }

  /** Only unsupported blocks have an empty HTML fragment. */
  lemma HtmlFragmentEmptyIff(b: Block)
    ensures ConvertBlockToHtml(b) == "" <==> b.Unsupported?
  {
    if HasText(b) {
      BlockConversionTable(b);
      assert |ConvertBlockToHtml(b)| >= |HtmlTags(b).0| > 0;
    }
  }

  /** A Markdown fragment is empty exactly for an unsupported block or a paragraph with no text. */
  lemma MarkdownFragmentEmptyIff(b: Block)
    ensures ConvertBlockToMarkdown(b) == "" <==> b.Unsupported? || (b.Paragraph? && PlainTextFromBlock(b) == "")
  {
    if HasText(b) && !b.Paragraph? {
      BlockConversionTable(b);
      assert |ConvertBlockToMarkdown(b)| >= |MarkdownPrefix(b)| > 0;
    }
  }
}
